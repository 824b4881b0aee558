/** Cutting the byte stream of a PLC connection into telegrams. */
module Framing {
  import opened Basics

  newtype Byte = x: int | 0 <= x < 256

  type Bytes = seq<Byte>

  /** A telegram ends at a fixed length or at a terminator; 0 and empty mean not configured. */
  datatype Endpoint = Endpoint(terminator: Bytes, telegramLength: nat)

  /** Where the terminator first occurs. */
  function FirstAt(term: Bytes, data: Bytes): (r: Option<nat>)
    ensures r.Some? ==> r.value + |term| <= |data|
  {
    if |data| < |term| then None
    else if data[..|term|] == term then Some(0)
    else if |data| == 0 then None
    else
      match FirstAt(term, data[1..])
      case None => None
      case Some(i) => Some(i + 1)
  }

  /** The first complete telegram in the buffer, and what follows it. */
  function Cut(e: Endpoint, data: Bytes): (r: Option<(Bytes, Bytes)>)
    ensures r.Some? ==> |r.value.1| < |data|
  {
    if e.telegramLength > 0 && |data| >= e.telegramLength then Some((data[..e.telegramLength],
        data[e.telegramLength..]))
    else if |e.terminator| > 0 then
      match FirstAt(e.terminator, data)
      case None => None
      case Some(i) => Some((data[..i], data[i + |e.terminator|..]))
    else None
  }

  /** Every complete telegram in the buffer, and the residue. */
  function Drain(e: Endpoint, data: Bytes): (seq<Bytes>, Bytes)
    decreases |data|
  {
    match Cut(e, data)
    case None => ([], data)
    case Some(c) =>
      var (frames, rest) := Drain(e, c.1);
      ([c.0] + frames, rest)
  }

  /** The server loop: an empty chunk is the end of the connection. */
  function Receive(e: Endpoint, chunks: seq<Bytes>, data: Bytes): (seq<Bytes>, Bytes)
    decreases |chunks|
  {
    if |chunks| == 0 || |chunks[0]| == 0 then ([], data)
    else
      var (frames, rest) := Drain(e, data + chunks[0]);
      var (more, residue) := Receive(e, chunks[1..], rest);
      (frames + more, residue)
  }

  class Connection {
    const endpoint: Endpoint
    var data: Bytes
    var received: seq<Bytes>

    constructor (e: Endpoint)
      ensures endpoint == e && data == [] && received == []
    {
      endpoint, data, received := e, [], [];
    }

    method Handle(chunks: seq<Bytes>)
      modifies this
      ensures var (frames, residue) := Receive(endpoint, chunks, old(data));
        received == old(received) + frames && data == residue
    {
      var n := 0;
      ghost var whole := Receive(endpoint, chunks, data);
      while n < |chunks| && |chunks[n]| > 0
        invariant 0 <= n <= |chunks|
        invariant var (frames, residue) := Receive(endpoint, chunks[n..], data);
          received + frames == old(received) + whole.0 && residue == whole.1
      {
        assert chunks[n..][0] == chunks[n] && chunks[n..][1..] == chunks[n + 1..];
        data := data + chunks[n];
        CutFrames();
        n := n + 1;
      }
      assert Receive(endpoint, chunks[n..], data) == ([], data);
    }

    method CutFrames()
      modifies this
      ensures var (frames, rest) := Drain(endpoint, old(data)); received == old(received) + frames && data == rest
    {
      ghost var whole := Drain(endpoint, data);
      while true
        invariant var (frames, rest) := Drain(endpoint, data);
            received + frames == old(received) + whole.0 && rest == whole.1
        decreases |data|
      {
        var next := Cut(endpoint, data);
        if next.None? { break; }
        received, data := received + [next.value.0], next.value.1;
      }
    }
  }

  // ---------------------------------------------------------------- chunks do not matter

  function Concat(chunks: seq<Bytes>): Bytes
    decreases |chunks|
  {
    if |chunks| == 0 then [] else chunks[0] + Concat(chunks[1..])
  }

  const RECV_SIZE: nat := 4096

  /** recv answers with at least one byte until the connection closes, and with no more than it was asked for. */
  ghost predicate ProperChunks(chunks: seq<Bytes>) {
    forall i :: 0 <= i < |chunks| ==> 0 < |chunks[i]| <= RECV_SIZE
  }

  /** The telegrams handed over depend on the bytes alone, not on how the network cut them up. */
  ghost predicate ChunkIndependent(e: Endpoint) {
    forall a: seq<Bytes>, b: seq<Bytes> :: ProperChunks(a) && ProperChunks(b) && Concat(a) == Concat(b) ==>
        Receive(e, a, []) == Receive(e, b, [])
  }

  /** Only one of the two ways to end a telegram can ever apply. */
  ghost predicate Unambiguous(e: Endpoint) {
    e.telegramLength == 0 || |e.terminator| == 0 || |e.terminator| >= e.telegramLength
  }

  lemma {:induction false} FirstAtPrefix(term: Bytes, data: Bytes, more: Bytes)
    requires |term| > 0
    ensures FirstAt(term, data).Some? ==> FirstAt(term, data + more) == FirstAt(term, data)
    ensures FirstAt(term, data + more).Some? && FirstAt(term, data + more).value + |term| <= |data| ==>
        FirstAt(term, data) == FirstAt(term, data + more)
  {
    if |data| >= |term| {
      assert (data + more)[..|term|] == data[..|term|];
      assert (data + more)[1..] == data[1..] + more;
      FirstAtPrefix(term, data[1..], more);
    }
  }

  lemma CutIsStable(e: Endpoint, data: Bytes, more: Bytes)
    requires Unambiguous(e) && Cut(e, data).Some?
    ensures Cut(e, data + more) == Some((Cut(e, data).value.0, Cut(e, data).value.1 + more))
  {
    var n := e.telegramLength;
    if n > 0 && |data| >= n {
      assert (data + more)[..n] == data[..n] && (data + more)[n..] == data[n..] + more;
    } else {
      FirstAtPrefix(e.terminator, data, more);
      var i := FirstAt(e.terminator, data).value;
      assert (data + more)[..i] == data[..i];
      assert (data + more)[i + |e.terminator|..] == data[i + |e.terminator|..] + more;
    }
  }

  lemma Associative<T>(a: seq<T>, b: seq<T>, c: seq<T>)
    ensures (a + b) + c == a + (b + c)
  {
  }

  lemma CutThenDrain(e: Endpoint, stream: Bytes, frame: Bytes, tail: Bytes, others: seq<Bytes>, rest: Bytes)
    requires Cut(e, stream) == Some((frame, tail)) && Drain(e, tail) == (others, rest)
    ensures Drain(e, stream) == ([frame] + others, rest)
  {
  }

  /** Draining what is there and then the residue with what follows is draining it all. */
  lemma {:induction false} DrainComposes(e: Endpoint, data: Bytes, more: Bytes, frames: seq<Bytes>, rest: Bytes)
    requires Unambiguous(e) && Drain(e, data) == (frames, rest)
    ensures Drain(e, data + more) == (frames + Drain(e, rest + more).0, Drain(e, rest + more).1)
    decreases |data|
  {
    var (others, residue) := Drain(e, rest + more);
    if Cut(e, data).None? {
      assert [] + others == others;
    } else {
      var (frame, tail) := Cut(e, data).value;
      var later := Drain(e, tail).0;
      CutIsStable(e, data, more);
      DrainComposes(e, tail, more, later, rest);
      CutThenDrain(e, data + more, frame, tail + more, later + others, residue);
      CutThenDrain(e, data, frame, tail, later, rest);
      Associative([frame], later, others);
    }
  }

  lemma {:induction false} ResidueIsDrained(e: Endpoint, data: Bytes)
    ensures Cut(e, Drain(e, data).1).None?
    decreases |data|
  {
    if Cut(e, data).Some? { ResidueIsDrained(e, Cut(e, data).value.1); }
  }

  lemma {:induction false} ReceiveIsDrain(e: Endpoint, chunks: seq<Bytes>, data: Bytes)
    requires Unambiguous(e) && ProperChunks(chunks) && Cut(e, data).None?
    ensures Receive(e, chunks, data) == Drain(e, data + Concat(chunks))
    decreases |chunks|
  {
    if |chunks| == 0 {
      assert data + [] == data;
    } else {
      var rest := Drain(e, data + chunks[0]).1;
      ResidueIsDrained(e, data + chunks[0]);
      ReceiveIsDrain(e, chunks[1..], rest);
      DrainComposes(e, data + chunks[0], Concat(chunks[1..]), Drain(e, data + chunks[0]).0, rest);
      assert data + Concat(chunks) == data + chunks[0] + Concat(chunks[1..]);
    }
  }

  lemma NothingInEmptyBuffer(e: Endpoint)
    ensures Cut(e, []).None?
  {
  }

  /** One chunk for each byte. */
  function Single(data: Bytes): (chunks: seq<Bytes>)
    ensures |chunks| == |data|
  {
    seq(|data|, i requires 0 <= i < |data| => [data[i]])
  }

  lemma {:induction false} ConcatSingle(data: Bytes, more: seq<Bytes>)
    ensures Concat(Single(data) + more) == data + Concat(more)
    decreases |data|
  {
    var all := Single(data) + more;
    if |data| == 0 {
      assert all == more;
    } else {
      assert all[0] == [data[0]] && all[1..] == Single(data[1..]) + more;
      ConcatSingle(data[1..], more);
      assert data == [data[0]] + data[1..];
    }
  }

  /** While no telegram is complete, bytes pile up in the buffer. */
  lemma {:induction false} BytesPileUp(e: Endpoint, data: Bytes, coming: Bytes, more: seq<Bytes>)
    requires forall k :: 0 < k <= |coming| ==> Cut(e, data + coming[..k]).None?
    ensures Receive(e, Single(coming) + more, data) == Receive(e, more, data + coming)
    decreases |coming|
  {
    var all := Single(coming) + more;
    if |coming| == 0 {
      assert all == more && data + coming == data;
    } else {
      var next := data + [coming[0]];
      assert all[0] == [coming[0]] && all[1..] == Single(coming[1..]) + more;
      assert coming[..1] == [coming[0]];
      assert Drain(e, next) == ([], next);
      forall k | 0 < k <= |coming[1..]| ensures Cut(e, next + coming[1..][..k]).None? {
        assert next + coming[1..][..k] == data + coming[..k + 1];
      }
      BytesPileUp(e, next, coming[1..], more);
      assert next + coming[1..] == data + coming;
      var (frames, rest) := Receive(e, all[1..], next);
      assert [] + frames == frames;
    }
  }

  lemma FirstFrame(e: Endpoint, data: Bytes, chunks: seq<Bytes>)
    requires |chunks| > 0 && |chunks[0]| > 0 && Cut(e, data + chunks[0]).Some?
    ensures var frames := Receive(e, chunks, data).0; |frames| > 0 && frames[0] == Cut(e, data + chunks[0]).value.0
  {
    assert |Drain(e, data + chunks[0]).0| > 0;
  }

  /** A byte that the terminator does not begin with, as often as that. */
  function Filler(term: Bytes, n: nat): Bytes { seq(n, _ => if |term| > 0 && term[0] == 0 then 1 else 0) }

  lemma {:induction false} FirstAtEnd(term: Bytes, n: nat)
    requires |term| > 0
    ensures FirstAt(term, Filler(term, n) + term) == Some(n)
    decreases n
  {
    var data := Filler(term, n) + term;
    if n == 0 {
      assert data == term && data[..|term|] == term;
    } else {
      assert data[1..] == Filler(term, n - 1) + term;
      assert data[..|term|][0] != term[0];
      FirstAtEnd(term, n - 1);
    }
  }

  lemma {:induction false} NotBefore(term: Bytes, data: Bytes, k: nat)
    requires |term| > 0 && FirstAt(term, data) == Some(|data| - |term|) && k < |data|
    ensures FirstAt(term, data[..k]).None?
  {
    if FirstAt(term, data[..k]).Some? {
      assert data == data[..k] + data[k..];
      FirstAtPrefix(term, data[..k], data[k..]);
      assert false;
    }
  }

  /** With both a length and a shorter terminator, the same bytes give different telegrams when the terminator's last
      byte comes by itself and when it comes together with one more. */
  lemma AmbiguousDependsOnChunks(e: Endpoint)
    requires !Unambiguous(e)
    ensures !ChunkIndependent(e)
  {
    var term, n := e.terminator, e.telegramLength;
    var head := Filler(term, n - 1 - |term|);
    var ended := head + term;
    var front, last := ended[..n - 2], ended[n - 2..];
    FirstAtEnd(term, n - 1 - |term|);
    assert ended == front + last && |last| == 1;
    forall k | 0 < k <= |front| ensures Cut(e, [] + front[..k]).None? {
      NotBefore(term, ended, k);
      assert [] + front[..k] == ended[..k];
    }
    FirstFrames(e, head, front, last);
    ApartAndTogether(e, front, last);
  }

  lemma ApartAndTogether(e: Endpoint, front: Bytes, last: Bytes)
    requires |last| == 1 && (forall k :: 0 < k <= |front| ==> Cut(e, [] + front[..k]).None?)
    requires Receive(e, [last, [0]], front) != Receive(e, [last + [0]], front)
    ensures !ChunkIndependent(e)
  {
    var apart, together := Single(front) + [last, [0]], Single(front) + [last + [0]];
    ConcatSingle(front, [last, [0]]);
    ConcatSingle(front, [last + [0]]);
    TwoAndOne(last, [0]);
    BytesPileUp(e, [], front, [last, [0]]);
    BytesPileUp(e, [], front, [last + [0]]);
    assert [] + front == front;
    assert ProperChunks(apart) && ProperChunks(together);
  }

  lemma TwoAndOne(a: Bytes, b: Bytes)
    ensures Concat([a, b]) == Concat([a + b])
  {
    assert [a, b][1..] == [b] && [b][1..] == [] && [a + b][1..] == [];
  }

  lemma FirstFrames(e: Endpoint, head: Bytes, front: Bytes, last: Bytes)
    requires |e.terminator| > 0 && |last| == 1 && front + last == head + e.terminator && |front| + 2 == e.telegramLength
    requires FirstAt(e.terminator, head + e.terminator) == Some(|head|)
    ensures Receive(e, [last, [0]], front) != Receive(e, [last + [0]], front)
  {
    var data, whole := front + last, front + (last + [0]);
    assert Cut(e, data).Some? && |Cut(e, data).value.0| == |head|;
    assert Cut(e, whole).Some? && |Cut(e, whole).value.0| == e.telegramLength;
    FirstFrame(e, front, [last, [0]]);
    FirstFrame(e, front, [last + [0]]);
  }

  /** The exact condition for chunk independence. */
  lemma ChunkIndependentExactly(e: Endpoint)
    ensures ChunkIndependent(e) <==> Unambiguous(e)
  {
    if Unambiguous(e) {
      NothingInEmptyBuffer(e);
      forall a: seq<Bytes>, b: seq<Bytes> | ProperChunks(a) && ProperChunks(b) && Concat(a) == Concat(b)
        ensures Receive(e, a, []) == Receive(e, b, [])
      {
        ReceiveIsDrain(e, a, []);
        ReceiveIsDrain(e, b, []);
      }
    } else {
      AmbiguousDependsOnChunks(e);
    }
  }

  // ---------------------------------------------------------------- which telegrams

  function Joined(frames: seq<Bytes>, term: Bytes): Bytes
    decreases |frames|
  {
    if |frames| == 0 then [] else frames[0] + term + Joined(frames[1..], term)
  }

  /** The stream split at successive first terminators. */
  ghost predicate IsSplit(term: Bytes, stream: Bytes, frames: seq<Bytes>, rest: Bytes) {
    && stream == Joined(frames, term) + rest
    && (forall k :: 0 <= k < |frames| ==> FirstAt(term, frames[k] + term) == Some(|frames[k]|))
    && FirstAt(term, rest).None?
  }

  lemma {:induction false} FoundIsThere(term: Bytes, data: Bytes)
    requires FirstAt(term, data).Some?
    ensures var i := FirstAt(term, data).value; data[i..i + |term|] == term
  {
    if data[..|term|] != term {
      FoundIsThere(term, data[1..]);
      var i := FirstAt(term, data[1..]).value;
      assert data[1..][i..i + |term|] == data[i + 1..i + 1 + |term|];
    }
  }

  lemma CutAtFirst(e: Endpoint, stream: Bytes) returns (head: Bytes, tail: Bytes)
    requires e.telegramLength == 0 && |e.terminator| > 0 && FirstAt(e.terminator, stream).Some?
    ensures stream == head + e.terminator + tail && Cut(e, stream) == Some((head, tail)) && |tail| < |stream|
    ensures FirstAt(e.terminator, head + e.terminator) == Some(|head|)
  {
    var term, i := e.terminator, FirstAt(e.terminator, stream).value;
    head, tail := stream[..i], stream[i + |term|..];
    FoundIsThere(term, stream);
    assert stream == head + term + tail;
    FirstAtPrefix(term, head + term, tail);
  }

  lemma {:induction false} DrainSplits(e: Endpoint, stream: Bytes)
    requires e.telegramLength == 0 && |e.terminator| > 0
    ensures IsSplit(e.terminator, stream, Drain(e, stream).0, Drain(e, stream).1)
    decreases |stream|
  {
    if FirstAt(e.terminator, stream).Some? {
      var head, tail := CutAtFirst(e, stream);
      var (frames, rest) := Drain(e, tail);
      DrainSplits(e, tail);
      SplitCons(e.terminator, tail, frames, rest, head);
      CutThenDrain(e, stream, head, tail, frames, rest);
    }
  }

  lemma SplitCons(term: Bytes, tail: Bytes, frames: seq<Bytes>, rest: Bytes, head: Bytes)
    requires IsSplit(term, tail, frames, rest) && FirstAt(term, head + term) == Some(|head|)
    ensures IsSplit(term, head + term + tail, [head] + frames, rest)
  {
    var all := [head] + frames;
    assert all[1..] == frames;
    assert head + term + (Joined(frames, term) + rest) == (head + term + Joined(frames, term)) + rest;
    forall k | 0 <= k < |all| ensures FirstAt(term, all[k] + term) == Some(|all[k]|) {
      if k > 0 { assert all[k] == frames[k - 1]; }
    }
  }

  /** The first piece of a split ends at the first terminator. */
  lemma SplitHead(term: Bytes, stream: Bytes, frames: seq<Bytes>, rest: Bytes)
    requires |term| > 0 && IsSplit(term, stream, frames, rest) && |frames| > 0
    ensures FirstAt(term, stream) == Some(|frames[0]|)
    ensures frames[0] == stream[..|frames[0]|]
    ensures IsSplit(term, stream[|frames[0]| + |term|..], frames[1..], rest)
  {
    var tail := Joined(frames[1..], term) + rest;
    assert stream == frames[0] + term + tail;
    FirstAtPrefix(term, frames[0] + term, tail);
    assert stream[|frames[0]| + |term|..] == tail;
  }

  lemma HeadAndTail<T>(s: seq<T>)
    requires |s| > 0
    ensures s == [s[0]] + s[1..]
  {
  }

  lemma SplitStep(e: Endpoint, stream: Bytes, frames: seq<Bytes>, rest: Bytes) returns (tail: Bytes)
    requires e.telegramLength == 0 && |e.terminator| > 0 && |frames| > 0
    requires IsSplit(e.terminator, stream, frames, rest)
    ensures Cut(e, stream) == Some((frames[0], tail)) && IsSplit(e.terminator, tail, frames[1..], rest)
  {
    SplitHead(e.terminator, stream, frames, rest);
    tail := stream[|frames[0]| + |e.terminator|..];
  }

  lemma {:induction false} SplitIsUnique(e: Endpoint, stream: Bytes, frames: seq<Bytes>, rest: Bytes)
    requires e.telegramLength == 0 && |e.terminator| > 0
    requires IsSplit(e.terminator, stream, frames, rest)
    ensures Drain(e, stream) == (frames, rest)
    decreases |frames|
  {
    if |frames| == 0 {
      assert stream == rest;
    } else {
      var tail := SplitStep(e, stream, frames, rest);
      SplitIsUnique(e, tail, frames[1..], rest);
      CutThenDrain(e, stream, frames[0], tail, frames[1..], rest);
      HeadAndTail(frames);
    }
  }

  /** Terminated telegrams are exactly the pieces between successive first terminators. */
  lemma DrainIsSplit(e: Endpoint, stream: Bytes, frames: seq<Bytes>, rest: Bytes)
    requires e.telegramLength == 0 && |e.terminator| > 0
    ensures Drain(e, stream) == (frames, rest) <==> IsSplit(e.terminator, stream, frames, rest)
  {
    DrainSplits(e, stream);
    if IsSplit(e.terminator, stream, frames, rest) { SplitIsUnique(e, stream, frames, rest); }
  }

  ghost predicate IsPieces(n: nat, stream: Bytes, frames: seq<Bytes>, rest: Bytes) {
    && stream == Concat(frames) + rest
    && (forall k :: 0 <= k < |frames| ==> |frames[k]| == n)
    && |rest| < n
  }

  /** Only the length can end a telegram: no terminator fits into what is shorter. */
  predicate LengthDecides(e: Endpoint) {
    e.telegramLength > 0 && (|e.terminator| == 0 || |e.terminator| >= e.telegramLength)
  }

  lemma {:induction false} DrainCutsPieces(e: Endpoint, stream: Bytes)
    requires LengthDecides(e)
    ensures IsPieces(e.telegramLength, stream, Drain(e, stream).0, Drain(e, stream).1)
    decreases |stream|
  {
    var n := e.telegramLength;
    if |stream| >= n {
      DrainCutsPieces(e, stream[n..]);
      var (frames, rest) := Drain(e, stream[n..]);
      var all := [stream[..n]] + frames;
      assert all[1..] == frames;
      assert stream == stream[..n] + (Concat(frames) + rest) == (stream[..n] + Concat(frames)) + rest;
    }
  }

  /** Fixed-length telegrams are exactly the successive pieces of that length. */
  lemma {:induction false} DrainIsPieces(e: Endpoint, stream: Bytes, frames: seq<Bytes>, rest: Bytes)
    requires LengthDecides(e)
    ensures Drain(e, stream) == (frames, rest) <==> IsPieces(e.telegramLength, stream, frames, rest)
    decreases |frames|
  {
    DrainCutsPieces(e, stream);
    if IsPieces(e.telegramLength, stream, frames, rest) {
      if |frames| > 0 {
        var tail := Concat(frames[1..]) + rest;
        assert stream == frames[0] + tail;
        assert stream[..e.telegramLength] == frames[0] && stream[e.telegramLength..] == tail;
        DrainIsPieces(e, tail, frames[1..], rest);
        assert frames == [frames[0]] + frames[1..];
      } else {
        assert stream == rest;
      }
    }
  }

  /** The terminator stands at a place. */
  predicate StandsAt(term: Bytes, data: Bytes, i: nat) { i + |term| <= |data| && data[i..i + |term|] == term }

  lemma {:induction false} FirstAtIsFirst(term: Bytes, data: Bytes)
    ensures match FirstAt(term, data)
      case None => forall i: nat :: !StandsAt(term, data, i)
      case Some(i) => StandsAt(term, data, i) && forall j: nat :: j < i ==> !StandsAt(term, data, j)
  {
    if |data| >= |term| && data[..|term|] != term && |data| > 0 {
      FirstAtIsFirst(term, data[1..]);
      forall i: nat | i > 0 ensures StandsAt(term, data, i) <==> StandsAt(term, data[1..], i - 1) {
        if i + |term| <= |data| { assert data[1..][i - 1..i - 1 + |term|] == data[i..i + |term|]; }
      }
    }
  }

  /** Cut off by the terminator alone. */
  function Terminated(e: Endpoint): Endpoint { Endpoint(e.terminator, 0) }

  lemma {:induction false} ShortDrains(e: Endpoint, stream: Bytes)
    requires |stream| < e.telegramLength
    ensures Drain(e, stream) == Drain(Terminated(e), stream)
    decreases |stream|
  {
    assert Cut(e, stream) == Cut(Terminated(e), stream);
    if Cut(e, stream).Some? { ShortDrains(e, Cut(e, stream).value.1); }
  }

  /** With both a length and a terminator, what is buffered goes out in pieces of the length as long as it lasts, and
      the rest of it is split at the terminators. */
  lemma {:induction false} DrainIsPiecesThenSplit(e: Endpoint, stream: Bytes) returns (pieces: seq<Bytes>, tail: Bytes)
    requires e.telegramLength > 0 && |e.terminator| > 0
    ensures |pieces| <= |Drain(e, stream).0| && Drain(e, stream).0[..|pieces|] == pieces
    ensures IsPieces(e.telegramLength, stream, pieces, tail)
    ensures IsSplit(e.terminator, tail, Drain(e, stream).0[|pieces|..], Drain(e, stream).1)
    decreases |stream|
  {
    var n := e.telegramLength;
    if |stream| < n {
      pieces, tail := [], stream;
      ShortDrains(e, stream);
      DrainSplits(Terminated(e), stream);
    } else {
      var more, last := DrainIsPiecesThenSplit(e, stream[n..]);
      var (frames, rest) := Drain(e, stream[n..]);
      pieces, tail := [stream[..n]] + more, last;
      assert pieces[1..] == more;
      assert stream == stream[..n] + (Concat(more) + last) == (stream[..n] + Concat(more)) + last;
      assert Drain(e, stream).0 == [stream[..n]] + frames;
      assert ([stream[..n]] + frames)[|pieces|..] == frames[|more|..];
    }
  }

  /** Once an empty chunk has come the connection is over, whatever else is in the list. */
  lemma {:induction false} NothingAfterTheEnd(e: Endpoint, chunks: seq<Bytes>, more: seq<Bytes>, data: Bytes)
    requires forall i :: 0 <= i < |chunks| ==> |chunks[i]| > 0
    ensures Receive(e, chunks + [[]] + more, data) == Receive(e, chunks, data)
    decreases |chunks|
  {
    var all := chunks + [[]] + more;
    if |chunks| == 0 {
      assert all[0] == [];
    } else {
      assert all[0] == chunks[0] && all[1..] == chunks[1..] + [[]] + more;
      NothingAfterTheEnd(e, chunks[1..], more, Drain(e, data + chunks[0]).1);
    }
  }
}
