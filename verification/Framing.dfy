/** Length-prefixed frames (protocol/frame.go) over writers that accept any part of what they are
    given and readers that deliver any fragment of what is left. */
module Framing {
  import opened Utf8
  import opened Wrappers

  const MAX_FRAME_SIZE: nat := 0x100_0000

  predicate Legal(payload: seq<byte>) {
    0 < |payload| <= MAX_FRAME_SIZE
  }

  /** Four bytes, most significant first. */
  function BigEndian(n: nat): (h: seq<byte>)
    requires n < 0x1_0000_0000
    ensures |h| == 4
  {
    var a := n / 0x100;
    var b := a / 0x100;
    [b / 0x100, b % 0x100, a % 0x100, n % 0x100]
  }

  function FromBigEndian(h: seq<byte>): nat
    requires |h| == 4
  {
    var b := (h[0] as int) * 0x100 + h[1] as int;
    var a := b * 0x100 + h[2] as int;
    a * 0x100 + h[3] as int
  }

  lemma HeaderRoundTrip(n: nat)
    requires n < 0x1_0000_0000
    ensures FromBigEndian(BigEndian(n)) == n
  {
  }

  function Encode(payload: seq<byte>): seq<byte>
    requires Legal(payload)
  {
    BigEndian(|payload|) + payload
  }

  function EncodeAll(payloads: seq<seq<byte>>): seq<byte>
    requires forall i :: 0 <= i < |payloads| ==> Legal(payloads[i])
  {
    if payloads == [] then [] else Encode(payloads[0]) + EncodeAll(payloads[1..])
  }

  /** What ReadFrame makes of the bytes to come: a payload and the rest, or an error. */
  function Decode(stream: seq<byte>): Option<(seq<byte>, seq<byte>)> {
    if |stream| < 4 then None
    else
      var n := FromBigEndian(stream[..4]);
      if n == 0 || n > MAX_FRAME_SIZE || |stream| < 4 + n then None
      else Some((stream[4..4 + n], stream[4 + n..]))
  }

  /** Every frame a reader gets before its first error. */
  function DecodeAll(stream: seq<byte>): seq<seq<byte>>
    decreases |stream|
  {
    var d := Decode(stream);
    if d.None? then [] else [d.value.0] + DecodeAll(d.value.1)
  }

  /** Where the reader stands when it meets that error. */
  function Unread(stream: seq<byte>): seq<byte>
    decreases |stream|
  {
    var d := Decode(stream);
    if d.None? then stream else Unread(d.value.1)
  }

  lemma DecodeEncoded(payload: seq<byte>, rest: seq<byte>)
    requires Legal(payload)
    ensures Decode(Encode(payload) + rest) == Some((payload, rest))
  {
    var stream := Encode(payload) + rest;
    HeaderRoundTrip(|payload|);
    assert stream[..4] == BigEndian(|payload|);
    assert stream[4..4 + |payload|] == payload;
    assert stream[4 + |payload|..] == rest;
  }

  lemma HeaderExact(h: seq<byte>)
    requires |h| == 4
    ensures FromBigEndian(h) < 0x1_0000_0000 && BigEndian(FromBigEndian(h)) == h
  {
    var b := (h[0] as int) * 0x100 + h[1] as int;
    var a := b * 0x100 + h[2] as int;
    LowByte(h[0] as int, h[1] as int);
    LowByte(b, h[2] as int);
    LowByte(a, h[3] as int);
  }

  lemma LowByte(q: nat, r: nat)
    requires r < 0x100
    ensures (q * 0x100 + r) / 0x100 == q && (q * 0x100 + r) % 0x100 == r
  {
  }

  /** A frame is read exactly when the stream begins with one, and it is that one: every legal length is
      accepted and no other, and exactly its bytes are consumed. */
  lemma DecodeExactly(stream: seq<byte>, payload: seq<byte>, rest: seq<byte>)
    ensures Decode(stream) == Some((payload, rest)) <==> Legal(payload) && stream == Encode(payload) + rest
  {
    if Legal(payload) && stream == Encode(payload) + rest {
      DecodeEncoded(payload, rest);
    }
    if Decode(stream) == Some((payload, rest)) {
      HeaderExact(stream[..4]);
      assert stream == stream[..4] + stream[4..4 + |payload|] + stream[4 + |payload|..];
    }
  }

  /** A frame cut anywhere before its end is not read. */
  lemma DecodeTruncated(payload: seq<byte>, k: nat)
    requires Legal(payload) && k < |Encode(payload)|
    ensures Decode(Encode(payload)[..k]).None?
  {
    if k >= 4 {
      HeaderRoundTrip(|payload|);
      assert Encode(payload)[..k][..4] == BigEndian(|payload|);
    }
  }

  lemma DecodeAllCons(payload: seq<byte>, rest: seq<byte>)
    requires Legal(payload)
    ensures DecodeAll(Encode(payload) + rest) == [payload] + DecodeAll(rest)
    ensures Unread(Encode(payload) + rest) == Unread(rest)
  {
    hide Decode, Encode;
    DecodeEncoded(payload, rest);
  }

  lemma DecodeAllNone(stream: seq<byte>)
    requires Decode(stream).None?
    ensures DecodeAll(stream) == [] && Unread(stream) == stream
  {
  }

  /** Any stream cut off anywhere yields exactly its complete frames, then an error; uncut, it yields
      every payload in order. `m` counts the complete frames. */
  lemma {:induction false} CutStreamYieldsCompleteFrames(payloads: seq<seq<byte>>, k: nat, m: nat)
    requires forall i :: 0 <= i < |payloads| ==> Legal(payloads[i])
    requires m <= |payloads| && k <= |EncodeAll(payloads)|
    requires |EncodeAll(payloads[..m])| <= k && (m < |payloads| ==> k < |EncodeAll(payloads[..m + 1])|)
    ensures DecodeAll(EncodeAll(payloads)[..k]) == payloads[..m]
    ensures Decode(Unread(EncodeAll(payloads)[..k])).None?
    ensures Unread(EncodeAll(payloads)[..k]) == EncodeAll(payloads)[..k][|EncodeAll(payloads[..m])|..]
    decreases |payloads|
  {
    hide Decode, Encode, Legal, DecodeAll, Unread;
    var stream := EncodeAll(payloads)[..k];
    if payloads == [] {
      NothingDecodes(stream);
    } else if m == 0 {
      EncodeAllFirst(payloads, 0);
      assert stream == Encode(payloads[0])[..k];
      DecodeTruncated(payloads[0], k);
      DecodeAllNone(stream);
    } else {
      var first, rest := Encode(payloads[0]), payloads[1..];
      EncodeAllFirst(payloads, m);
      if m < |payloads| {
        EncodeAllFirst(payloads, m + 1);
      }
      assert stream == first + EncodeAll(rest)[..k - |first|];
      DecodeAllCons(payloads[0], EncodeAll(rest)[..k - |first|]);
      CutStreamYieldsCompleteFrames(rest, k - |first|, m - 1);
      assert payloads[..m] == [payloads[0]] + rest[..m - 1];
    }
  }

  lemma NothingDecodes(stream: seq<byte>)
    requires |stream| < 4
    ensures Decode(stream).None? && DecodeAll(stream) == [] && Unread(stream) == stream
  {
  }

  lemma EncodeAllFirst(payloads: seq<seq<byte>>, m: nat)
    requires payloads != [] && m <= |payloads| && forall i :: 0 <= i < |payloads| ==> Legal(payloads[i])
    ensures m > 0 ==> EncodeAll(payloads[..m]) == Encode(payloads[0]) + EncodeAll(payloads[1..][..m - 1])
    ensures EncodeAll(payloads[..1]) == Encode(payloads[0])
  {
    assert payloads[..1][1..] == [];
    if m > 0 {
      assert payloads[..m][1..] == payloads[1..][..m - 1];
    }
  }

  /** Every cut falls after some number of complete frames. */
  lemma {:induction false} CompleteFrames(payloads: seq<seq<byte>>, k: nat) returns (m: nat)
    requires forall i :: 0 <= i < |payloads| ==> Legal(payloads[i])
    requires k <= |EncodeAll(payloads)|
    ensures m <= |payloads| && |EncodeAll(payloads[..m])| <= k
    ensures m < |payloads| ==> k < |EncodeAll(payloads[..m + 1])|
    decreases |payloads|
  {
    hide Encode, Legal;
    if payloads == [] || k < |Encode(payloads[0])| {
      m := 0;
      if payloads != [] {
        EncodeAllFirst(payloads, 0);
      }
    } else {
      var rest := CompleteFrames(payloads[1..], k - |Encode(payloads[0])|);
      m := rest + 1;
      EncodeAllFirst(payloads, m);
      if m < |payloads| {
        EncodeAllFirst(payloads, m + 1);
      }
    }
  }

  /** So whatever part of a list of frames went out, a reader gets the first payloads of the list, all of
      them exactly when everything went out, and stops with an error at the frame that was cut. */
  lemma PartlySentArrives(sent: seq<byte>, payloads: seq<seq<byte>>)
    requires forall i :: 0 <= i < |payloads| ==> Legal(payloads[i])
    requires PartlySent([], sent, payloads)
    ensures DecodeAll(sent) <= payloads && Decode(Unread(sent)).None?
    ensures sent == EncodeAll(DecodeAll(sent)) + Unread(sent)
    ensures DecodeAll(sent) == payloads <==> sent == EncodeAll(payloads)
  {
    hide Encode, Legal, Decode, DecodeAll, Unread, EncodeAll;
    var k :| 0 <= k <= |EncodeAll(payloads)| && sent == [] + EncodeAll(payloads)[..k];
    var m := CompleteFrames(payloads, k);
    CutStreamYieldsCompleteFrames(payloads, k, m);
    assert sent == EncodeAll(payloads)[..k];
    assert payloads[..|payloads|] == payloads;
    EncodeAllPrefix(payloads, m);
    assert EncodeAll(payloads)[..k][..|EncodeAll(payloads[..m])|] == EncodeAll(payloads[..m]);
    WholeStreamRoundTrip(payloads);
  }

  /** The round trip. */
  lemma WholeStreamRoundTrip(payloads: seq<seq<byte>>)
    requires forall i :: 0 <= i < |payloads| ==> Legal(payloads[i])
    ensures DecodeAll(EncodeAll(payloads)) == payloads
  {
    var stream := EncodeAll(payloads);
    assert payloads[..|payloads|] == payloads && stream[..|stream|] == stream;
    CutStreamYieldsCompleteFrames(payloads, |stream|, |payloads|);
  }

  /** A writer that takes as much as it likes of each write, or fails. */
  class Writer {
    var written: seq<byte>

    constructor ()
      ensures written == []
    {
      written := [];
    }

    method Write(p: seq<byte>) returns (n: nat, failed: bool)
      modifies this
      ensures n <= |p| && written == old(written) + p[..n]
    {
      failed := *;
      n :| 0 <= n <= |p|;
      written := written + p[..n];
    }
  }

  /** A reader that delivers a non-empty fragment of what is left, or nothing at the end. */
  class Reader {
    var left: seq<byte>

    constructor (stream: seq<byte>)
      ensures left == stream
    {
      left := stream;
    }

    method Read(want: nat) returns (got: seq<byte>)
      modifies this
      ensures |got| <= want && old(left) == got + left
      ensures want > 0 && old(left) != [] ==> got != []
    {
      var n: nat :| n <= want && n <= |left| && (want > 0 && left != [] ==> n > 0);
      got := left[..n];
      left := left[n..];
    }
  }

  method WriteAll(w: Writer, data: seq<byte>) returns (ok: bool)
    modifies w
    ensures ok ==> w.written == old(w.written) + data
    ensures exists k :: 0 <= k <= |data| && w.written == old(w.written) + data[..k]
  {
    var p := data;
    ghost var k := 0;
    assert w.written == old(w.written) + data[..0];
    while |p| > 0
      invariant 0 <= k <= |data| && p == data[k..] && w.written == old(w.written) + data[..k]
      decreases |p|
    {
      var n, failed := w.Write(p);
      assert data[..k] + p[..n] == data[..k + n];
      k := k + n;
      if failed || n == 0 {
        return false;
      }
      p := p[n..];
    }
    assert data[..k] == data;
    ok := true;
  }

  /** Writes one frame; on failure only a beginning of it has reached the writer. */
  method WriteFrame(w: Writer, payload: seq<byte>) returns (ok: bool)
    modifies w
    ensures ok ==> Legal(payload) && w.written == old(w.written) + Encode(payload)
    ensures !Legal(payload) ==> !ok && w.written == old(w.written)
    ensures Legal(payload) ==>
              exists k :: 0 <= k <= |Encode(payload)| && w.written == old(w.written) + Encode(payload)[..k]
  {
    if |payload| == 0 || |payload| > MAX_FRAME_SIZE {
      return false;
    }
    ghost var before, frame := w.written, Encode(payload);
    var header := BigEndian(|payload|);
    ok := WriteAll(w, header);
    if !ok {
      ghost var k :| 0 <= k <= |header| && w.written == before + header[..k];
      assert header[..k] == frame[..k];
      return;
    }
    ok := WriteAll(w, payload);
    ghost var k :| 0 <= k <= |payload| && w.written == before + header + payload[..k];
    assert header + payload[..k] == frame[..4 + k];
    assert before + header + payload[..k] == before + frame[..4 + k];
    if ok {
      assert before + header + payload == before + frame;
    }
  }

  /** What a writer has accepted when some of a list of frames went out. */
  ghost predicate PartlySent(before: seq<byte>, now: seq<byte>, payloads: seq<seq<byte>>)
    requires forall i :: 0 <= i < |payloads| ==> Legal(payloads[i])
  {
    exists k :: 0 <= k <= |EncodeAll(payloads)| && now == before + EncodeAll(payloads)[..k]
  }

  /** Writes frames until one fails. Whatever the writer did, the bytes it took are a beginning of the
      encoded list, so a reader gets complete frames in order and nothing else. */
  method WriteFrames(w: Writer, payloads: seq<seq<byte>>) returns (ok: bool)
    requires forall i :: 0 <= i < |payloads| ==> Legal(payloads[i])
    modifies w
    ensures ok ==> w.written == old(w.written) + EncodeAll(payloads)
    ensures PartlySent(old(w.written), w.written, payloads)
  {
    hide Encode, Legal;
    ghost var before, all := w.written, EncodeAll(payloads);
    assert payloads[..0] == [];
    for i := 0 to |payloads|
      invariant w.written == before + EncodeAll(payloads[..i])
    {
      EncodeAllSnoc(payloads, i);
      EncodeAllPrefix(payloads, i + 1);
      var sent := WriteFrame(w, payloads[i]);
      if !sent {
        ghost var sentBefore, frame := EncodeAll(payloads[..i]), Encode(payloads[i]);
        ghost var k :| 0 <= k <= |frame| && w.written == before + sentBefore + frame[..k];
        ghost var at := |sentBefore| + k;
        assert w.written == before + all[..at];
        return false;
      }
      assert before + EncodeAll(payloads[..i]) + Encode(payloads[i]) == before + EncodeAll(payloads[..i + 1]);
    }
    assert payloads[..|payloads|] == payloads;
    assert w.written == before + all[..|all|];
    ok := true;
  }

  lemma {:induction false} EncodeAllSplits(a: seq<seq<byte>>, b: seq<seq<byte>>)
    requires (forall i :: 0 <= i < |a| ==> Legal(a[i])) && (forall i :: 0 <= i < |b| ==> Legal(b[i]))
    ensures (forall i :: 0 <= i < |a + b| ==> Legal((a + b)[i])) && EncodeAll(a + b) == EncodeAll(a) + EncodeAll(b)
  {
    hide Encode, Legal;
    if a == [] {
      assert a + b == b;
    } else {
      EncodeAllSplits(a[1..], b);
      assert (a + b)[1..] == a[1..] + b;
    }
  }

  lemma EncodeAllOne(payload: seq<byte>)
    requires Legal(payload)
    ensures EncodeAll([payload]) == Encode(payload)
  {
    var one := [payload];
    assert one[1..] == [];
  }

  lemma EncodeAllSnoc(payloads: seq<seq<byte>>, i: nat)
    requires i < |payloads| && forall j :: 0 <= j < |payloads| ==> Legal(payloads[j])
    ensures EncodeAll(payloads[..i + 1]) == EncodeAll(payloads[..i]) + Encode(payloads[i])
  {
    hide Encode, Legal, EncodeAll;
    assert payloads[..i + 1] == payloads[..i] + [payloads[i]];
    EncodeAllSplits(payloads[..i], [payloads[i]]);
    EncodeAllOne(payloads[i]);
  }

  lemma EncodeAllPrefix(payloads: seq<seq<byte>>, i: nat)
    requires i <= |payloads| && forall j :: 0 <= j < |payloads| ==> Legal(payloads[j])
    ensures EncodeAll(payloads[..i]) <= EncodeAll(payloads)
  {
    hide Encode, Legal, EncodeAll;
    assert payloads == payloads[..i] + payloads[i..];
    EncodeAllSplits(payloads[..i], payloads[i..]);
  }

  method ReadFull(r: Reader, n: nat) returns (data: Option<seq<byte>>)
    modifies r
    ensures data.Some? <==> n <= |old(r.left)|
    ensures data.Some? ==> data.value == old(r.left)[..n] && r.left == old(r.left)[n..]
  {
    var got: seq<byte> := [];
    while |got| < n
      invariant |got| <= n && old(r.left) == got + r.left
      decreases n - |got|
    {
      var part := r.Read(n - |got|);
      if part == [] {
        return None;
      }
      assert got + (part + r.left) == got + part + r.left;
      got := got + part;
    }
    data := Some(got);
  }

  /** Reads one frame however the stream is fragmented: exactly what `Decode` says of the bytes. */
  method ReadFrame(r: Reader) returns (payload: Option<seq<byte>>)
    modifies r
    ensures payload.Some? <==> Decode(old(r.left)).Some?
    ensures payload.Some? ==> Decode(old(r.left)).value == (payload.value, r.left)
  {
    ghost var stream := r.left;
    var header := ReadFull(r, 4);
    if header.None? {
      return None;
    }
    var n := FromBigEndian(header.value);
    if n == 0 || n > MAX_FRAME_SIZE {
      return None;
    }
    payload := ReadFull(r, n);
    if payload.Some? {
      assert stream[4..][..n] == stream[4..4 + n];
      assert stream[4..][n..] == stream[4 + n..];
    }
  }

  /** Reads until the first error: the frames are those of `DecodeAll`. */
  method ReadAllFrames(r: Reader) returns (frames: seq<seq<byte>>)
    modifies r
    ensures frames == DecodeAll(old(r.left))
  {
    frames := [];
    ghost var rest := r.left;
    while true
      invariant r.left == rest
      invariant frames + DecodeAll(rest) == DecodeAll(old(r.left))
      decreases |rest|
    {
      var payload := ReadFrame(r);
      if payload.None? {
        assert frames + [] == frames;
        return;
      }
      assert frames + ([payload.value] + DecodeAll(r.left)) == frames + [payload.value] + DecodeAll(r.left);
      frames := frames + [payload.value];
      rest := r.left;
    }
  }

  /** Writing over any writer, then reading what it took over any reader: only beginnings of the list
      arrive, and the whole list when the writing succeeded. */
  method Transfer(payloads: seq<seq<byte>>) returns (ok: bool, received: seq<seq<byte>>)
    requires forall i :: 0 <= i < |payloads| ==> Legal(payloads[i])
    ensures received <= payloads
    ensures ok ==> received == payloads
  {
    hide Legal, EncodeAll, DecodeAll;
    var w := new Writer();
    ok := WriteFrames(w, payloads);
    assert [] + EncodeAll(payloads) == EncodeAll(payloads);
    PartlySentArrives(w.written, payloads);
    var r := new Reader(w.written);
    received := ReadAllFrames(r);
  }
}
