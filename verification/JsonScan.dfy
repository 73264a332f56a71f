/** The duplicate-key scan of protocol/frame.go over the token stream of a JSON decoder. */
module JsonScan {
  import opened Utf8
  import opened Wrappers

  /** Decoder tokens; a scalar other than a string needs no content here. */
  datatype Token = OpenObject | CloseObject | OpenArray | CloseArray | StringToken(text: Text) | ScalarToken

  datatype Json = Scalar | String(text: Text) | Array(elements: seq<Json>) | Object(members: seq<Member>)
  datatype Member = Member(key: Text, value: Json)

  // The tokens of well-formed JSON.

  function Tokens(j: Json): seq<Token> {
    match j
    case Scalar => [ScalarToken]
    case String(text) => [StringToken(text)]
    case Array(elements) => [OpenArray] + ElementTokens(elements) + [CloseArray]
    case Object(members) => [OpenObject] + MemberTokens(members) + [CloseObject]
  }

  function ElementTokens(js: seq<Json>): seq<Token> {
    if js == [] then [] else Tokens(js[0]) + ElementTokens(js[1..])
  }

  function MemberTokens(ms: seq<Member>): seq<Token> {
    if ms == [] then [] else [StringToken(ms[0].key)] + Tokens(ms[0].value) + MemberTokens(ms[1..])
  }

  /** No object at any depth repeats a key. */
  predicate Unique(j: Json) {
    match j
    case Scalar => true
    case String(_) => true
    case Array(elements) => forall i :: 0 <= i < |elements| ==> Unique(elements[i])
    case Object(members) =>
      && (forall i :: 0 <= i < |members| ==> Unique(members[i].value))
      && (forall i, k :: 0 <= i < k < |members| ==> members[i].key != members[k].key)
  }

  // The scan: what is left of the tokens, or None for an error.

  predicate More(ts: seq<Token>) {
    ts != [] && !ts[0].CloseObject? && !ts[0].CloseArray?
  }

  predicate Shorter(ts: seq<Token>, r: Option<seq<Token>>) {
    r.Some? ==> |r.value| < |ts|
  }

  function ScanValue(ts: seq<Token>): (r: Option<seq<Token>>)
    ensures Shorter(ts, r)
    decreases |ts|, 0
  {
    if ts == [] then None
    else
      match ts[0]
      case ScalarToken => Some(ts[1..])
      case StringToken(_) => Some(ts[1..])
      case OpenObject => ScanMembers(ts[1..], {})
      case OpenArray => ScanElements(ts[1..])
      case _ => None
  }

  function ScanElements(ts: seq<Token>): (r: Option<seq<Token>>)
    ensures Shorter(ts, r)
    decreases |ts|, 1
  {
    if More(ts) then
      var r := ScanValue(ts);
      if r.None? then None else ScanElements(r.value)
    else if ts == [] then None
    else Some(ts[1..])
  }

  function ScanMembers(ts: seq<Token>, seen: set<Text>): (r: Option<seq<Token>>)
    ensures Shorter(ts, r)
    decreases |ts|, 1
  {
    if More(ts) then
      if !ts[0].StringToken? || ts[0].text in seen then None
      else
        var r := ScanValue(ts[1..]);
        if r.None? then None else ScanMembers(r.value, seen + {ts[0].text})
    else if ts == [] then None
    else Some(ts[1..])
  }

  /** Scan one value and require the end of input. */
  predicate Accepts(ts: seq<Token>) {
    ScanValue(ts) == Some([])
  }

  /** A scan consumes exactly one value and fails exactly when some object in it repeats a key. */
  lemma {:induction false} ScanOfValue(j: Json, rest: seq<Token>)
    ensures ScanValue(Tokens(j) + rest) == if Unique(j) then Some(rest) else None
    ensures More(Tokens(j) + rest)
    decreases j, 0
  {
    var ts := Tokens(j) + rest;
    match j
    case Scalar => assert ts[1..] == rest;
    case String(text) => assert ts[1..] == rest;
    case Array(elements) =>
      assert ts[1..] == ElementTokens(elements) + ([CloseArray] + rest);
      ScanOfElements(elements, rest);
    case Object(members) =>
      assert ts[1..] == MemberTokens(members) + ([CloseObject] + rest);
      ScanOfMembers(members, {}, rest);
  }

  lemma {:induction false} ScanOfElements(js: seq<Json>, rest: seq<Token>)
    ensures ScanElements(ElementTokens(js) + ([CloseArray] + rest)) ==
            if forall i :: 0 <= i < |js| ==> Unique(js[i]) then Some(rest) else None
    decreases js, 1
  {
    var ts := ElementTokens(js) + ([CloseArray] + rest);
    if js == [] {
      assert ts == [CloseArray] + rest;
      assert ts[1..] == rest;
    } else {
      var after := ElementTokens(js[1..]) + ([CloseArray] + rest);
      assert ts == Tokens(js[0]) + after;
      ScanOfValue(js[0], after);
      ScanOfElements(js[1..], rest);
      assert forall i :: 1 <= i < |js| ==> js[i] == js[1..][i - 1];
      assert (forall i :: 0 <= i < |js| ==> Unique(js[i])) <==>
             Unique(js[0]) && forall i :: 0 <= i < |js| - 1 ==> Unique(js[1..][i]);
    }
  }

  predicate MembersUnique(ms: seq<Member>, seen: set<Text>) {
    && (forall i :: 0 <= i < |ms| ==> Unique(ms[i].value) && ms[i].key !in seen)
    && (forall i, k :: 0 <= i < k < |ms| ==> ms[i].key != ms[k].key)
  }

  lemma MembersUniqueStep(ms: seq<Member>, seen: set<Text>)
    requires ms != []
    ensures MembersUnique(ms, seen) <==>
            ms[0].key !in seen && Unique(ms[0].value) && MembersUnique(ms[1..], seen + {ms[0].key})
  {
    hide Unique;
    var rest := ms[1..];
    assert forall i :: 0 <= i < |rest| ==> rest[i] == ms[i + 1];
    assert forall i :: 1 <= i < |ms| ==> ms[i] == rest[i - 1];
  }

  lemma {:induction false} ScanOfMembers(ms: seq<Member>, seen: set<Text>, rest: seq<Token>)
    ensures ScanMembers(MemberTokens(ms) + ([CloseObject] + rest), seen) ==
            if MembersUnique(ms, seen) then Some(rest) else None
    decreases ms, 1
  {
    hide Unique;
    var ts := MemberTokens(ms) + ([CloseObject] + rest);
    if ms == [] {
      assert ts == [CloseObject] + rest;
      assert ts[1..] == rest;
    } else {
      var after := MemberTokens(ms[1..]) + ([CloseObject] + rest);
      assert ts[0] == StringToken(ms[0].key);
      assert ts[1..] == Tokens(ms[0].value) + after;
      ScanOfValue(ms[0].value, after);
      ScanOfMembers(ms[1..], seen + {ms[0].key}, rest);
      MembersUniqueStep(ms, seen);
    }
  }

  /** With the end-of-input check, the token streams of well-formed JSON that are accepted are exactly
      those of a single value without repeated keys. */
  lemma AcceptsExactlySingleUniqueValues(js: seq<Json>)
    ensures Accepts(ElementTokens(js)) <==> |js| == 1 && Unique(js[0])
  {
    if js != [] {
      ScanOfValue(js[0], ElementTokens(js[1..]));
      if |js| > 1 {
        ScanOfValue(js[1], ElementTokens(js[1..][1..]));
        assert ElementTokens(js[1..]) != [];
      }
    }
  }

  /** The JSON decoder, delivering one token after the other. */
  class Decoder {
    var left: seq<Token>

    constructor (tokens: seq<Token>)
      ensures left == tokens
    {
      left := tokens;
    }

    method Token() returns (t: Option<Token>)
      modifies this
      ensures old(left) == [] ==> t.None? && left == []
      ensures old(left) != [] ==> t == Some(old(left)[0]) && left == old(left)[1..]
    {
      if left == [] {
        return None;
      }
      t := Some(left[0]);
      left := left[1..];
    }

    method ScanJsonValue() returns (ok: bool)
      modifies this
      ensures ok <==> ScanValue(old(left)).Some?
      ensures ok ==> left == ScanValue(old(left)).value
      decreases |left|
    {
      ghost var start := left;
      var tok := Token();
      if tok.None? {
        return false;
      }
      match tok.value
      case OpenObject =>
        var seen: set<Text> := {};
        while More(left)
          invariant |left| < |start|
          invariant ScanValue(start) == ScanMembers(left, seen)
          decreases |left|
        {
          var key := Token();
          if !key.value.StringToken? || key.value.text in seen {
            return false;
          }
          seen := seen + {key.value.text};
          var valueOk := ScanJsonValue();
          if !valueOk {
            return false;
          }
        }
        var close := Token();
        ok := close.Some?;
      case OpenArray =>
        while More(left)
          invariant |left| < |start|
          invariant ScanValue(start) == ScanElements(left)
          decreases |left|
        {
          var valueOk := ScanJsonValue();
          if !valueOk {
            return false;
          }
        }
        var close := Token();
        ok := close.Some?;
      case CloseObject => ok := false;
      case CloseArray => ok := false;
      case _ => ok := true;
    }

    method RejectDuplicateKeys() returns (ok: bool)
      modifies this
      ensures ok <==> Accepts(old(left))
    {
      ok := ScanJsonValue();
      if ok {
        var extra := Token();
        ok := extra.None?;
      }
    }
  }
}
