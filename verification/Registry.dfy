/** The item registries of internal/watcher: `Server` (the watcher this service owns, server.go) and
    `Client` (the view of a foreign watcher, attach.go). They issue generations and notify the
    application, which feeds the state owner. A registry call and its notifications are one step. */
module Registry {
  import opened Utf8
  import opened Wrappers
  import opened Protocol
  import opened Records
  import opened Generations

  datatype Book = Book(items: map<Address, ItemKey>, generation: uint64)

  datatype Note = Added(key: ItemKey) | Removed(key: ItemKey)

  const EMPTY_BOOK := Book(map[], 0)

  function Issue(b: Book, a: Address): (Book, ItemKey) {
    var key := ItemKey(a.owner, a.path, Bump(b.generation));
    (Book(b.items[a := key], key.generation), key)
  }

  /** server.go, register: a known address keeps its generation. */
  function Register(b: Book, a: Address): (Book, seq<Note>) {
    if a in b.items then (b, [])
    else
      var (r, key) := Issue(b, a);
      (r, [Added(key)])
  }

  /** attach.go, add: a known address is replaced by a fresh generation. */
  function Enter(b: Book, a: Address): (Book, seq<Note>) {
    var (r, key) := Issue(b, a);
    (r, (if a in b.items then [Removed(b.items[a])] else []) + [Added(key)])
  }

  /** Dropping addresses one after the other, as removeOwner, remove and drain do. */
  function Drop(b: Book, addresses: seq<Address>): (Book, seq<Note>) {
    if addresses == [] then (b, [])
    else
      var (r, notes) := Drop(b, addresses[..|addresses| - 1]);
      var a := addresses[|addresses| - 1];
      if a in r.items then (r.(items := r.items - {a}), notes + [Removed(r.items[a])]) else (r, notes)
  }

  lemma DropOne(b: Book, a: Address)
    ensures Drop(b, [a]) ==
            if a in b.items then (b.(items := b.items - {a}), [Removed(b.items[a])]) else (b, [])
  {
    assert [a][..0] == [];
    var gone := Removed(if a in b.items then b.items[a] else ItemKey([], [], 0));
    assert [] + [gone] == [gone];
  }

  class Server {
    var items: map<Address, ItemKey>
    var generation: uint64

    function Now(): Book
      reads this
    {
      Book(items, generation)
    }

    constructor ()
      ensures Now() == EMPTY_BOOK
    {
      items, generation := map[], 0;
    }

    method RegisterItem(a: Address) returns (notes: seq<Note>)
      modifies this
      ensures (Now(), notes) == Register(old(Now()), a)
    {
      if a in items {
        return [];
      }
      generation := Bump(generation);
      var key := ItemKey(a.owner, a.path, generation);
      items := items[a := key];
      notes := [Added(key)];
    }

    /** Drops every item of a departed owner, in whatever order the map yields them. */
    method RemoveOwner(owner: Text) returns (notes: seq<Note>, ghost order: seq<Address>)
      modifies this`items
      ensures (Now(), notes) == Drop(old(Now()), order)
      ensures items == map a | a in old(items) && a.owner != owner :: old(items)[a]
      ensures forall a :: a in order ==> a.owner == owner && a in old(items)
    {
      notes, order := [], [];
      var todo := set a | a in items && a.owner == owner;
      assert items == old(items);
      while todo != {}
        invariant (Now(), notes) == Drop(old(Now()), order)
        invariant forall a :: a in todo ==> a in items && a.owner == owner
        invariant forall a :: a in items <==> a in old(items) && (a.owner != owner || a in todo)
        invariant forall a :: a in items ==> items[a] == old(items)[a]
        invariant forall a :: a in order ==> a.owner == owner && a in old(items)
        decreases todo
      {
        var a :| a in todo;
        assert (order + [a])[..|order|] == order;
        notes := notes + [Removed(items[a])];
        items := items - {a};
        todo := todo - {a};
        order := order + [a];
      }
    }
  }

  class Client {
    var items: map<Address, ItemKey>
    var generation: uint64

    function Now(): Book
      reads this
    {
      Book(items, generation)
    }

    constructor ()
      ensures Now() == EMPTY_BOOK
    {
      items, generation := map[], 0;
    }

    method AddEntry(a: Address) returns (notes: seq<Note>)
      modifies this
      ensures (Now(), notes) == Enter(old(Now()), a)
    {
      notes := [];
      if a in items {
        notes := [Removed(items[a])];
        items := items - {a};
      }
      generation := Bump(generation);
      var key := ItemKey(a.owner, a.path, generation);
      assert old(items)[a := key] == items[a := key];
      items := items[a := key];
      notes := notes + [Added(key)];
    }

    method RemoveEntry(a: Address) returns (notes: seq<Note>)
      modifies this`items
      ensures (Now(), notes) == Drop(old(Now()), [a])
    {
      DropOne(Now(), a);
      assert a !in items ==> items - {a} == items;
      notes := if a in items then [Removed(items[a])] else [];
      items := items - {a};
    }

    /** Hands back every key, in whatever order the map yields them. */
    method Drain() returns (notes: seq<Note>, ghost order: seq<Address>)
      modifies this`items
      ensures (Now(), notes) == Drop(old(Now()), order)
      ensures items == map[]
    {
      notes, order := [], [];
      while items.Keys != {}
        invariant (Now(), notes) == Drop(old(Now()), order)
        decreases items.Keys
      {
        var a :| a in items.Keys;
        assert (order + [a])[..|order|] == order;
        notes := notes + [Removed(items[a])];
        items := items - {a};
        order := order + [a];
      }
      assert items == map[];
    }
  }

  // Runs of one registry instance feeding the owner.

  /** The registry's calls, and what may reach the owner late and on its own: refreshes, menus and
      removals for any key. */
  datatype Step =
    | RegisterStep(a: Address)
    | EnterStep(a: Address)
    | DropStep(addresses: seq<Address>)
    | Late(command: Command)

  datatype System = System(book: Book, table: Table, notes: seq<Note>)

  const INITIAL := System(EMPTY_BOOK, EMPTY_TABLE, [])

  /** What the application tells the owner about a notification. */
  function Heard(n: Note): Command {
    match n
    case Added(key) => Add(key)
    case Removed(key) => Remove(key)
  }

  function HearAll(t: Table, notes: seq<Note>): Table {
    if notes == [] then t else Apply(HearAll(t, notes[..|notes| - 1]), Heard(notes[|notes| - 1])).0
  }

  function Called(b: Book, step: Step): (Book, seq<Note>)
    requires !step.Late?
  {
    match step
    case RegisterStep(a) => Register(b, a)
    case EnterStep(a) => Enter(b, a)
    case DropStep(addresses) => Drop(b, addresses)
  }

  function Next(y: System, step: Step): System {
    if step.Late? then if step.command.Add? then y else y.(table := Apply(y.table, step.command).0)
    else
      var (b, notes) := Called(y.book, step);
      System(b, HearAll(y.table, notes), y.notes + notes)
  }

  function Run(steps: seq<Step>): System {
    if steps == [] then INITIAL else Next(Run(steps[..|steps| - 1]), steps[|steps| - 1])
  }

  /** The key an address shows after a list of notifications. */
  function Live(notes: seq<Note>, a: Address): Option<ItemKey> {
    if notes == [] then None
    else
      match notes[|notes| - 1]
      case Added(key) => if AddressOf(key) == a then Some(key) else Live(notes[..|notes| - 1], a)
      case Removed(key) => if AddressOf(key) == a then None else Live(notes[..|notes| - 1], a)
  }

  predicate Older(notes: seq<Note>, generation: nat) {
    forall i :: 0 <= i < |notes| ==> notes[i].key.generation <= generation
  }

  /** Added and removed alternate per address, each removal naming the key last added, and every
      generation is above all earlier ones. */
  predicate Alternating(notes: seq<Note>) {
    notes == [] ||
    (var front, last := notes[..|notes| - 1], notes[|notes| - 1];
     && Alternating(front)
     && match last
        case Added(key) => Live(front, AddressOf(key)).None? && key.generation > 0 && Older(front, key.generation - 1)
        case Removed(key) => Live(front, AddressOf(key)) == Some(key))
  }

  /** The keys a registry has announced, in order. */
  function Issued(notes: seq<Note>): seq<ItemKey> {
    if notes == [] then []
    else
      var front, last := notes[..|notes| - 1], notes[|notes| - 1];
      Issued(front) + if last.Added? then [last.key] else []
  }

  /** The book is what the notifications say, and its generation counts the keys issued. */
  ghost predicate BookOk(b: Book, notes: seq<Note>) {
    && Alternating(notes) && Older(notes, b.generation) && b.generation == |Issued(notes)|
    && (forall a :: Live(notes, a) == if a in b.items then Some(b.items[a]) else None)
  }

  /** The owner's live keys are a subset of the registry's. */
  ghost predicate Covered(t: Table, b: Book) {
    forall a :: a in t.items ==> a in b.items && b.items[a] == t.items[a].key
  }

  lemma NoteSnoc(notes: seq<Note>, n: Note, a: Address)
    ensures Live(notes + [n], a) ==
            if AddressOf(n.key) != a then Live(notes, a) else if n.Added? then Some(n.key) else None
    ensures Alternating(notes + [n]) <==>
            && Alternating(notes)
            && if n.Added? then
                 && Live(notes, AddressOf(n.key)).None?
                 && n.key.generation > 0 && Older(notes, n.key.generation - 1)
               else Live(notes, AddressOf(n.key)) == Some(n.key)
    ensures Issued(notes + [n]) == Issued(notes) + if n.Added? then [n.key] else []
  {
    assert (notes + [n])[..|notes|] == notes;
  }

  /** Recording one removal. */
  lemma RemovedStep(b: Book, notes: seq<Note>, t: Table, a: Address)
    requires BookOk(b, notes) && Covered(t, b) && a in b.items
    ensures var n := Removed(b.items[a]);
            && BookOk(b.(items := b.items - {a}), notes + [n])
            && Covered(Apply(t, Heard(n)).0, b.(items := b.items - {a}))
  {
    hide Apply;
    var n := Removed(b.items[a]);
    LiveIsAt(notes, a);
    forall x ensures Live(notes + [n], x) == if x in b.items - {a} then Some(b.items[x]) else None {
      NoteSnoc(notes, n, x);
    }
    LastIsOld(notes, a);
    RemoveCovers(t, b, a);
  }

  lemma {:induction false} LiveIsAt(notes: seq<Note>, a: Address)
    ensures Live(notes, a).Some? ==> AddressOf(Live(notes, a).value) == a
  {
    if notes == [] {
    } else {
      LiveIsAt(notes[..|notes| - 1], a);
    }
  }

  lemma {:induction false} LastIsOld(notes: seq<Note>, a: Address)
    ensures Live(notes, a).Some? ==> exists i :: 0 <= i < |notes| && notes[i].key == Live(notes, a).value
  {
    if notes == [] {
    } else {
      var front := notes[..|notes| - 1];
      LastIsOld(front, a);
      if AddressOf(notes[|notes| - 1].key) != a && Live(front, a).Some? {
        var i :| 0 <= i < |front| && front[i].key == Live(front, a).value;
        assert notes[i].key == Live(notes, a).value;
      } else {
        assert notes[|notes| - 1].key == notes[|notes| - 1].key;
      }
    }
  }

  lemma RemoveCovers(t: Table, b: Book, a: Address)
    requires Covered(t, b) && a in b.items && AddressOf(b.items[a]) == a
    ensures Covered(Apply(t, Remove(b.items[a])).0, b.(items := b.items - {a}))
  {
    hide RemoveFirst;
  }

  /** Recording one issued generation. */
  lemma AddedStep(b: Book, notes: seq<Note>, t: Table, a: Address)
    requires BookOk(b, notes) && Covered(t, b) && a !in b.items && b.generation < U64_MAX
    ensures var (r, key) := Issue(b, a);
            BookOk(r, notes + [Added(key)]) && Covered(Apply(t, Add(key)).0, r)
  {
    hide Apply;
    var (r, key) := Issue(b, a);
    var n := Added(key);
    assert AddressOf(n.key) == a;
    forall x ensures Live(notes + [n], x) == if x in r.items then Some(r.items[x]) else None {
      NoteSnoc(notes, n, x);
    }
    assert Live(notes, a).None?;
    NoteSnoc(notes, n, a);
    AddCovers(t, b, a, key);
  }

  lemma AddCovers(t: Table, b: Book, a: Address, key: ItemKey)
    requires Covered(t, b) && a !in b.items && AddressOf(key) == a
    ensures Covered(Apply(t, Add(key)).0, b.(items := b.items[a := key], generation := key.generation))
  {
    hide RemoveFirst;
  }

  ghost predicate SystemOk(y: System) {
    BookOk(y.book, y.notes) && Covered(y.table, y.book)
  }

  lemma HearOne(t: Table, n: Note)
    ensures HearAll(t, [n]) == Apply(t, Heard(n)).0
  {
    hide Apply;
    assert [n][..0] == [];
  }

  lemma HearSnoc(t: Table, notes: seq<Note>, n: Note)
    ensures HearAll(t, notes + [n]) == Apply(HearAll(t, notes), Heard(n)).0
  {
    hide Apply;
    assert (notes + [n])[..|notes|] == notes;
  }

  lemma {:induction false} DropKeeps(y: System, addresses: seq<Address>)
    requires SystemOk(y)
    ensures SystemOk(Next(y, DropStep(addresses)))
    decreases |addresses|
  {
    hide Apply, Alternating, Live, Older;
    if addresses == [] {
      assert y.notes + [] == y.notes;
    } else {
      var front, a := addresses[..|addresses| - 1], addresses[|addresses| - 1];
      DropKeeps(y, front);
      var (r, notes) := Drop(y.book, front);
      if a in r.items {
        var n := Removed(r.items[a]);
        RemovedStep(r, y.notes + notes, HearAll(y.table, notes), a);
        HearSnoc(y.table, notes, n);
        assert y.notes + notes + [n] == y.notes + (notes + [n]);
      }
    }
  }

  lemma StepKeeps(y: System, step: Step)
    requires SystemOk(y) && |Issued(Next(y, step).notes)| <= U64_MAX
    ensures SystemOk(Next(y, step))
  {
    hide Apply, BookOk, Covered;
    match step
    case Late(command) => LateCovers(y.table, y.book, command);
    case DropStep(addresses) => DropKeeps(y, addresses);
    case RegisterStep(a) =>
      assert y.notes + [] == y.notes;
      if a !in y.book.items {
        var added := Added(Issue(y.book, a).1);
        RoomLeft(y, [], added);
        AddedStep(y.book, y.notes, y.table, a);
        HearOne(y.table, added);
      }
    case EnterStep(a) => EnterKeeps(y, a);
  }

  lemma LateCovers(t: Table, b: Book, command: Command)
    requires Covered(t, b)
    ensures !command.Add? ==> Covered(Apply(t, command).0, b)
  {
    hide RemoveFirst, ItemOk;
  }

  lemma EnterKeeps(y: System, a: Address)
    requires SystemOk(y) && |Issued(Next(y, EnterStep(a)).notes)| <= U64_MAX
    ensures SystemOk(Next(y, EnterStep(a)))
  {
    hide Apply, BookOk, Covered, Issued;
    var added := Added(Issue(y.book, a).1);
    if a in y.book.items {
      var gone := Removed(y.book.items[a]);
      var b := y.book.(items := y.book.items - {a});
      RoomLeft(y, [gone], added);
      RemovedStep(y.book, y.notes, y.table, a);
      HearOne(y.table, gone);
      AddedStep(b, y.notes + [gone], Apply(y.table, Heard(gone)).0, a);
      HearSnoc(y.table, [gone], added);
      assert y.notes + [gone] + [added] == y.notes + ([gone] + [added]);
      assert b.items[a := added.key] == y.book.items[a := added.key];
    } else {
      RoomLeft(y, [], added);
      AddedStep(y.book, y.notes, y.table, a);
      HearOne(y.table, added);
      assert [] + [added] == [added];
    }
  }

  /** While fewer than 2^64 keys have been issued the counter has not wrapped. */
  lemma RoomLeft(y: System, gone: seq<Note>, added: Note)
    requires BookOk(y.book, y.notes) && added.Added?
    requires |Issued(y.notes + (gone + [added]))| <= U64_MAX
    ensures y.book.generation < U64_MAX
  {
    hide Alternating, Live, Older, Issued;
    IssuedSplit(y.notes, gone + [added]);
    LastIssued(gone, added);
  }

  lemma LastIssued(gone: seq<Note>, added: Note)
    requires added.Added?
    ensures Issued(gone + [added]) != []
  {
    assert (gone + [added])[..|gone|] == gone;
  }

  lemma {:induction false} IssuedSplit(a: seq<Note>, b: seq<Note>)
    ensures Issued(a + b) == Issued(a) + Issued(b)
  {
    if b == [] {
      assert a + b == a;
    } else {
      var front, last := b[..|b| - 1], b[|b| - 1];
      IssuedSplit(a, front);
      assert (a + b)[..|a + b| - 1] == a + front;
    }
  }

  lemma IssuedNeverShrinks(y: System, step: Step)
    ensures |Issued(y.notes)| <= |Issued(Next(y, step).notes)|
  {
    hide Called, Apply, HearAll, Issued;
    if !step.Late? {
      IssuedSplit(y.notes, Called(y.book, step).1);
    }
  }

  lemma {:induction false} RunOk(steps: seq<Step>)
    requires |Issued(Run(steps).notes)| <= U64_MAX
    ensures SystemOk(Run(steps))
  {
    hide SystemOk, Next, Issued;
    if steps == [] {
      InitialOk();
    } else {
      IssuedNeverShrinks(Run(steps[..|steps| - 1]), steps[|steps| - 1]);
      RunOk(steps[..|steps| - 1]);
      StepKeeps(Run(steps[..|steps| - 1]), steps[|steps| - 1]);
    }
  }

  // What the owner is told.

  function HeardOf(notes: seq<Note>): seq<Command> {
    seq(|notes|, i requires 0 <= i < |notes| => Heard(notes[i]))
  }

  function Sent(y: System, step: Step): seq<Command> {
    if step.Late? then if step.command.Add? then [] else [step.command]
    else HeardOf(Called(y.book, step).1)
  }

  /** Every command of a run, from the registry or late, in the order the owner gets them. */
  function Commands(steps: seq<Step>): seq<Command> {
    if steps == [] then []
    else
      var front := steps[..|steps| - 1];
      Commands(front) + Sent(Run(front), steps[|steps| - 1])
  }

  lemma {:induction false} NotesPlay(commands: seq<Command>, notes: seq<Note>)
    ensures Played(commands + HeardOf(notes)).table == HearAll(Played(commands).table, notes)
    ensures Adds(HeardOf(notes)) == Issued(notes)
  {
    hide Apply, Played, Adds;
    if notes == [] {
      assert commands + HeardOf(notes) == commands;
      NothingAdded();
    } else {
      var front, last := notes[..|notes| - 1], notes[|notes| - 1];
      NotesPlay(commands, front);
      assert HeardOf(notes) == HeardOf(front) + [Heard(last)];
      assert commands + HeardOf(notes) == commands + HeardOf(front) + [Heard(last)];
      Snoc(commands + HeardOf(front), Heard(last));
      Snoc(HeardOf(front), Heard(last));
    }
  }

  lemma NothingAdded()
    ensures Adds([]) == []
  {
  }

  /** A run does to the owner what its commands do, and announces exactly the keys issued. */
  lemma {:induction false} RunPlays(steps: seq<Step>)
    ensures Played(Commands(steps)).table == Run(steps).table
    ensures Adds(Commands(steps)) == Issued(Run(steps).notes)
  {
    if steps == [] {
    } else {
      var front, last := steps[..|steps| - 1], steps[|steps| - 1];
      RunPlays(front);
      StepPlays(Run(front), last, Commands(front));
    }
  }

  lemma StepPlays(y: System, step: Step, commands: seq<Command>)
    requires Played(commands).table == y.table && Adds(commands) == Issued(y.notes)
    ensures Played(commands + Sent(y, step)).table == Next(y, step).table
    ensures Adds(commands + Sent(y, step)) == Issued(Next(y, step).notes)
  {
    hide Apply, Played, Adds, Issued, HearAll, HeardOf, Called;
    if !step.Late? {
      var notes := Called(y.book, step).1;
      NotesPlay(commands, notes);
      AddsSplit(commands, HeardOf(notes));
      IssuedSplit(y.notes, notes);
    } else if step.command.Add? {
      assert commands + [] == commands;
    } else {
      Snoc(commands, step.command);
      assert Adds(commands) + [] == Adds(commands);
    }
  }

  lemma {:induction false} IssuedAscend(notes: seq<Note>)
    requires Alternating(notes)
    ensures Ascending(Issued(notes))
    ensures forall k :: k in Issued(notes) ==> Added(k) in notes
  {
    hide Live;
    if notes == [] {
    } else {
      var front, last := notes[..|notes| - 1], notes[|notes| - 1];
      assert notes == front + [last];
      IssuedAscend(front);
      forall k | k in Issued(front) && last.Added? ensures k.generation < last.key.generation {
        var i :| 0 <= i < |front| && front[i] == Added(k);
        assert front[i].key.generation <= last.key.generation - 1;
      }
    }
  }

  lemma {:induction false} CommandsGrow(steps: seq<Step>, more: seq<Step>)
    ensures Commands(steps) <= Commands(steps + more)
    decreases |more|
  {
    hide Run, Sent;
    if more == [] {
      assert steps + more == steps;
    } else {
      var front := more[..|more| - 1];
      CommandsGrow(steps, front);
      assert (steps + more)[..|steps + more| - 1] == steps + front;
    }
  }

  /** Once the owner has retired a key, because the registry dropped it or on a late removal while the
      registry still lists it, no late call and no later registration makes it live again. */
  lemma OwnerRetiredStays(steps: seq<Step>, then_: seq<Step>, more: seq<Step>, key: ItemKey)
    requires |Issued(Run(steps + then_ + more).notes)| <= U64_MAX
    requires Current(Run(steps).table, key) && !Current(Run(steps + then_).table, key)
    ensures !Current(Run(steps + then_ + more).table, key)
  {
    hide Run, Commands, Current, Played, Adds, Issued, OnceEach, Alternating, BookOk, Covered;
    RunPlays(steps);
    RunPlays(steps + then_);
    RunPlays(steps + then_ + more);
    CommandsGrow(steps, then_);
    CommandsGrow(steps + then_, more);
    IssuedKeys(steps + then_ + more);
    var a, b, c := Commands(steps), Commands(steps + then_), Commands(steps + then_ + more);
    assert b == a + b[|a|..] && c == b + c[|b|..];
    RetiredStays(a, b[|a|..], c[|b|..], key);
  }

  /** A registry issues each key once, in rising order. */
  lemma IssuedKeys(steps: seq<Step>)
    requires |Issued(Run(steps).notes)| <= U64_MAX
    ensures Ascending(Issued(Run(steps).notes)) && OnceEach(Issued(Run(steps).notes))
  {
    hide Run, Issued, Ascending, OnceEach, Alternating, Live, Covered;
    RunOk(steps);
    IssuedAscend(Run(steps).notes);
    AscendingIsOnceEach(Issued(Run(steps).notes));
  }

  lemma InitialOk()
    ensures SystemOk(INITIAL)
  {
  }

  /** A key that was removed stays older than anything issued later, so it is never live again. */
  lemma {:induction false} RemovedIsNeverLive(notes: seq<Note>, key: ItemKey)
    requires Alternating(notes) && Removed(key) in notes
    ensures Live(notes, AddressOf(key)) != Some(key)
  {
    var front, last := notes[..|notes| - 1], notes[|notes| - 1];
    assert notes == front + [last];
    if Removed(key) in front {
      RemovedIsNeverLive(front, key);
      var i :| 0 <= i < |front| && front[i] == Removed(key);
    }
  }

  /** For every run of one registry, whatever late refreshes, menus and removals reach the owner:
      notifications alternate with rising generations, the owner's live keys are the registry's or
      fewer, and a retired key is never live again: not one the registry has removed, nor one the
      owner had and lost, for whatever reason. */
  lemma RetiredKeysStayRetired(steps: seq<Step>, then_: seq<Step>, more: seq<Step>, key: ItemKey)
    requires |Issued(Run(steps + then_ + more).notes)| <= U64_MAX
    ensures var y := Run(steps + then_ + more);
            && Alternating(y.notes)
            && (Current(y.table, key) ==> AddressOf(key) in y.book.items && y.book.items[AddressOf(key)] == key)
            && (Removed(key) in y.notes ==> !Current(y.table, key) && Live(y.notes, AddressOf(key)) != Some(key))
            && (Current(Run(steps).table, key) && !Current(Run(steps + then_).table, key) ==> !Current(y.table, key))
  {
    hide Run, Alternating, Live, Issued;
    RunOk(steps + then_ + more);
    var y := Run(steps + then_ + more);
    if Current(Run(steps).table, key) && !Current(Run(steps + then_).table, key) {
      OwnerRetiredStays(steps, then_, more, key);
    }
    if Removed(key) in y.notes {
      RemovedIsNeverLive(y.notes, key);
      var spot := AddressOf(key);
      assert Live(y.notes, spot) == if spot in y.book.items then Some(y.book.items[spot]) else None;
    }
  }

  // What the registry lists, and that the owner keeps up with it.

  /** A registration lists its address: a new one under the next generation, a known one as it was. */
  lemma RegisterLists(b: Book, a: Address)
    ensures var (r, notes) := Register(b, a);
            && r.items.Keys == b.items.Keys + {a}
            && (forall x :: x in b.items ==> r.items[x] == b.items[x])
            && (a in b.items ==> r == b && notes == [])
            && (a !in b.items ==>
                  && r.items[a] == ItemKey(a.owner, a.path, r.generation) && notes == [Added(r.items[a])]
                  && (b.generation < U64_MAX ==> r.generation == b.generation + 1))
  {
  }

  /** An entry of a foreign watcher lists its address under the next generation, known or not, and a
      replaced key is announced as removed first. */
  lemma EnterLists(b: Book, a: Address)
    ensures var (r, notes) := Enter(b, a);
            && r.items.Keys == b.items.Keys + {a}
            && (forall x :: x in b.items && x != a ==> r.items[x] == b.items[x])
            && r.items[a] == ItemKey(a.owner, a.path, r.generation)
            && (b.generation < U64_MAX ==> r.generation == b.generation + 1)
            && notes == if a in b.items then [Removed(b.items[a]), Added(r.items[a])] else [Added(r.items[a])]
  {
  }

  /** Dropping addresses unlists exactly those. */
  lemma {:induction false} DropUnlists(b: Book, addresses: seq<Address>)
    ensures Drop(b, addresses).0 ==
            Book(map a | a in b.items && a !in addresses :: b.items[a], b.generation)
    decreases |addresses|
  {
    if addresses == [] {
      assert (map a | a in b.items && a !in addresses :: b.items[a]) == b.items;
    } else {
      var front, last := addresses[..|addresses| - 1], addresses[|addresses| - 1];
      DropUnlists(b, front);
      assert addresses == front + [last];
      var kept := Drop(b, front).0.items;
      assert kept - {last} == map a | a in b.items && a !in addresses :: b.items[a];
      assert last !in kept ==> kept - {last} == kept;
    }
  }

  /** In any run: an address registered or entered is listed, one dropped is not, and a late command
      reaches the owner. */
  lemma StepsTakeEffect(steps: seq<Step>, a: Address, addresses: seq<Address>, c: Command)
    ensures a in Run(steps + [RegisterStep(a)]).book.items && a in Run(steps + [EnterStep(a)]).book.items
    ensures a in addresses ==> a !in Run(steps + [DropStep(addresses)]).book.items
    ensures !c.Add? ==> Run(steps + [Late(c)]).table == Apply(Run(steps).table, c).0
  {
    hide Apply, HearAll, Drop, Register, Enter;
    forall step: Step ensures Run(steps + [step]) == Next(Run(steps), step) {
      assert (steps + [step])[..|steps|] == steps;
    }
    RegisterLists(Run(steps).book, a);
    EnterLists(Run(steps).book, a);
    DropUnlists(Run(steps).book, addresses);
  }

  /** The owner has live exactly the keys the registry lists. */
  ghost predicate Complete(t: Table, b: Book) {
    TableOk(t) && t.items.Keys == b.items.Keys && forall a :: a in b.items ==> t.items[a].key == b.items[a]
  }

  lemma AddCompletes(t: Table, b: Book, a: Address)
    requires Complete(t, b) && a !in b.items && |b.items| < MAX_ITEMS
    ensures var (r, key) := Issue(b, a);
            Complete(Apply(t, Add(key)).0, r)
  {
    hide TableOk, Apply;
    var (r, key) := Issue(b, a);
    ApplyKeeps(t, Add(key));
    AddMakesLive(t, key);
    assert |t.items| == |t.items.Keys| == |b.items.Keys| == |b.items|;
    forall x | x != a ensures x in Apply(t, Add(key)).0.items <==> x in t.items
      ensures x in t.items ==> Apply(t, Add(key)).0.items[x] == t.items[x]
    {
      OthersUntouched(t, Add(key), x);
    }
  }

  lemma RemoveCompletes(t: Table, b: Book, a: Address)
    requires Complete(t, b) && a in b.items
    ensures Complete(Apply(t, Remove(b.items[a])).0, b.(items := b.items - {a}))
  {
    hide Apply;
    assert EntryOk(a, t.items[a]);
    hide TableOk;
    ApplyKeeps(t, Remove(b.items[a]));
    RemoveRetires(t, b.items[a]);
  }

  lemma LateCompletes(t: Table, b: Book, c: Command)
    requires Complete(t, b) && !c.Add? && !c.Remove?
    ensures Complete(Apply(t, c).0, b)
  {
    hide TableOk, Apply;
    ApplyKeeps(t, c);
    forall x ensures x in Apply(t, c).0.items <==> x in t.items
      ensures x in t.items ==> Apply(t, c).0.items[x].key == t.items[x].key
    {
      if x == AddressOf(c.key) {
        LateKeepsKey(t, c);
      } else {
        OthersUntouched(t, c, x);
      }
    }
  }

  lemma LateKeepsKey(t: Table, c: Command)
    requires !c.Add? && !c.Remove?
    ensures var a := AddressOf(c.key);
            && (a in Apply(t, c).0.items <==> a in t.items)
            && (a in t.items ==> Apply(t, c).0.items[a].key == t.items[a].key)
  {
    hide ItemOk;
  }

  lemma {:induction false} DropCompletes(t: Table, b: Book, addresses: seq<Address>)
    requires Complete(t, b)
    ensures var (r, notes) := Drop(b, addresses);
            Complete(HearAll(t, notes), r)
    decreases |addresses|
  {
    hide Apply, Complete;
    if addresses == [] {
    } else {
      var front, a := addresses[..|addresses| - 1], addresses[|addresses| - 1];
      DropCompletes(t, b, front);
      var (r, notes) := Drop(b, front);
      if a in r.items {
        RemoveCompletes(HearAll(t, notes), r, a);
        HearSnoc(t, notes, Removed(r.items[a]));
      }
    }
  }

  lemma StepCompletes(y: System, step: Step)
    requires Complete(y.table, y.book) && |Next(y, step).book.items| <= MAX_ITEMS
    requires step.Late? ==> !step.command.Remove?
    ensures Complete(Next(y, step).table, Next(y, step).book)
  {
    hide Apply, Complete;
    match step
    case Late(command) =>
      if !command.Add? {
        LateCompletes(y.table, y.book, command);
      }
    case DropStep(addresses) => DropCompletes(y.table, y.book, addresses);
    case RegisterStep(a) =>
      if a !in y.book.items {
        HearOne(y.table, Added(Issue(y.book, a).1));
        MoreListed(y.book, a);
        AddCompletes(y.table, y.book, a);
      }
    case EnterStep(a) => EnterCompletes(y, a);
  }

  lemma MoreListed(b: Book, a: Address)
    requires a !in b.items
    ensures |Issue(b, a).0.items| == |b.items| + 1
  {
    assert Issue(b, a).0.items.Keys == b.items.Keys + {a};
  }

  lemma EnterCompletes(y: System, a: Address)
    requires Complete(y.table, y.book) && |Next(y, EnterStep(a)).book.items| <= MAX_ITEMS
    ensures Complete(Next(y, EnterStep(a)).table, Next(y, EnterStep(a)).book)
  {
    hide Apply, Complete;
    var added := Added(Issue(y.book, a).1);
    if a in y.book.items {
      var gone := Removed(y.book.items[a]);
      var b := y.book.(items := y.book.items - {a});
      RemoveCompletes(y.table, y.book, a);
      HearOne(y.table, gone);
      assert b.items[a := added.key] == y.book.items[a := added.key];
      MoreListed(b, a);
      AddCompletes(Apply(y.table, Heard(gone)).0, b, a);
      HearSnoc(y.table, [gone], added);
    } else {
      MoreListed(y.book, a);
      AddCompletes(y.table, y.book, a);
      HearOne(y.table, added);
      assert [] + [added] == [added];
    }
  }

  /** The registry never lists more than the owner's cap, and nothing is removed behind its back. */
  predicate WithinCap(steps: seq<Step>) {
    && (forall i :: 0 <= i < |steps| && steps[i].Late? ==> !steps[i].command.Remove?)
    && (forall n :: 0 <= n <= |steps| ==> |Run(steps[..n]).book.items| <= MAX_ITEMS)
  }

  /** The other half of coverage: in every such run the owner has live exactly what the registry lists,
      whatever refreshes and menus arrive. */
  lemma {:induction false} OwnerKeepsUp(steps: seq<Step>)
    requires WithinCap(steps)
    ensures Complete(Run(steps).table, Run(steps).book)
  {
    hide Next, Complete;
    if steps == [] {
      NothingIsComplete();
    } else {
      var front, last := steps[..|steps| - 1], steps[|steps| - 1];
      assert forall n :: 0 <= n <= |front| ==> front[..n] == steps[..n];
      assert steps[..|steps|] == steps;
      OwnerKeepsUp(front);
      StepCompletes(Run(front), last);
    }
  }

  lemma NothingIsComplete()
    ensures Complete(EMPTY_TABLE, EMPTY_BOOK)
  {
  }
}
