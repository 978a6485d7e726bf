/** Reading a request's head and body from a connection, however the bytes arrive. */
module RequestHead {
  import opened Wrappers
  import opened Bytes

  datatype HttpError = Incomplete | Malformed(why: string) | HeadTooLarge | IncompleteBody

  const TERMINATOR: seq<byte> := [13, 10, 13, 10]

  // ----- what a head is -----

  predicate EndsHere(s: seq<byte>, i: nat) {
    i + 4 <= |s| && s[i..i + 4] == TERMINATOR
  }

  // Where the first terminator starting at or after `from` ends.
  function FirstEnd(s: seq<byte>, from: nat): (end: Option<nat>)
    requires from <= |s|
    ensures end.Some? ==> from + 4 <= end.value <= |s| && EndsHere(s, end.value - 4)
    ensures end.Some? ==> forall i :: from <= i < end.value - 4 ==> !EndsHere(s, i)
    ensures end.None? ==> forall i :: from <= i ==> !EndsHere(s, i)
    decreases |s| - from
  {
    if |s| < from + 4 then None
    else if EndsHere(s, from) then Some(from + 4)
    else FirstEnd(s, from + 1)
  }

  // What reading a head from a stream gives, and what it leaves unread.
  function HeadOf(stream: seq<byte>, maxHead: nat): (Result<seq<byte>, HttpError>, seq<byte>) {
    var end := FirstEnd(stream, 0);
    if end.Some? && end.value <= maxHead then (Ok(stream[..end.value]), stream[end.value..])
    else if stream == [] then (Err(Incomplete), [])
    else if |stream| >= maxHead then (Err(HeadTooLarge), stream[maxHead..])
    else (Err(Malformed("head ended without a blank line")), [])
  }

  // What reading a body of a declared length gives, and what it leaves unread.
  function BodyOf(stream: seq<byte>, declared: nat): (Result<seq<byte>, HttpError>, seq<byte>) {
    if |stream| >= declared then (Ok(stream[..declared]), stream[declared..]) else (Err(IncompleteBody), [])
  }

  predicate EndsHead(s: seq<byte>) {
    |s| >= 4 && EndsHere(s, |s| - 4)
  }

  // Where prefixes of the stream end in a blank line.
  lemma PrefixEnds(stream: seq<byte>, n: nat)
    requires n <= |stream|
    ensures EndsHead(stream[..n]) <==> n >= 4 && EndsHere(stream, n - 4)
  {
    if n >= 4 {
      assert stream[..n][n - 4..n] == stream[n - 4..n];
    }
  }

  predicate ShortestHead(stream: seq<byte>, head: seq<byte>) {
    head <= stream && EndsHead(head) && forall n: nat :: n < |head| ==> !EndsHead(stream[..n])
  }

  lemma FirstEndIsShortest(stream: seq<byte>)
    ensures FirstEnd(stream, 0).Some? ==> ShortestHead(stream, stream[..FirstEnd(stream, 0).value])
  {
    hide EndsHere, EndsHead, FirstEnd;
    forall n: nat | n <= |stream|
      ensures EndsHead(stream[..n]) <==> n >= 4 && EndsHere(stream, n - 4)
    {
      PrefixEnds(stream, n);
    }
  }

  lemma ShortestIsFirstEnd(stream: seq<byte>, head: seq<byte>)
    requires ShortestHead(stream, head)
    ensures FirstEnd(stream, 0) == Some(|head|)
  {
    assert stream[..|head|] == head;
    PrefixEnds(stream, |head|);
    hide EndsHere, EndsHead, FirstEnd;
    forall i: nat | i < |head| - 4
      ensures !EndsHere(stream, i)
    {
      PrefixEnds(stream, i + 4);
    }
    FirstEndIs(stream, |head|);
  }

  /** A head is read exactly when it is the shortest prefix ending in a blank line, and is within the limit. */
  lemma HeadIsShortest(stream: seq<byte>, maxHead: nat, head: seq<byte>)
    ensures HeadOf(stream, maxHead).0 == Ok(head) <==> ShortestHead(stream, head) && |head| <= maxHead
  {
    hide EndsHere, EndsHead, FirstEnd, ShortestHead;
    FirstEndIsShortest(stream);
    if ShortestHead(stream, head) {
      ShortestIsFirstEnd(stream, head);
      ShortestIsPrefix(stream, head);
    }
  }

  lemma ShortestIsPrefix(stream: seq<byte>, head: seq<byte>)
    requires ShortestHead(stream, head)
    ensures |head| <= |stream| && stream[..|head|] == head
  {
  }

  /** Head, body and what follows, taken apart in turn. */
  lemma HeadThenBody(head: seq<byte>, body: seq<byte>, rest: seq<byte>, maxHead: nat)
    requires ShortestHead(head, head) && |head| <= maxHead
    ensures HeadOf(head + body + rest, maxHead) == (Ok(head), body + rest)
    ensures BodyOf(body + rest, |body|) == (Ok(body), rest)
  {
    var stream := head + body + rest;
    forall n: nat | n < |head|
      ensures !EndsHead(stream[..n])
    {
      assert stream[..n] == head[..n];
    }
    hide EndsHere, EndsHead, FirstEnd;
    assert ShortestHead(stream, head);
    HeadIsShortest(stream, maxHead, head);
    HeadLength(stream, maxHead);
    assert stream[|head|..] == body + rest;
  }

  lemma HeadLength(stream: seq<byte>, maxHead: nat)
    ensures HeadOf(stream, maxHead).0.Ok? ==>
              var n := |HeadOf(stream, maxHead).0.value|; n <= |stream| && HeadOf(stream, maxHead).1 == stream[n..]
  {
  }

  // ----- the connection -----

  function Flat(arrivals: seq<seq<byte>>): seq<byte> {
    if arrivals == [] then [] else arrivals[0] + Flat(arrivals[1..])
  }

  /** A buffered reader: what has still to arrive, one read at a time. None of the reads is empty. */
  class Reader {
    var arrivals: seq<seq<byte>>

    constructor (arrivals: seq<seq<byte>>)
      requires forall i :: 0 <= i < |arrivals| ==> arrivals[i] != []
      ensures Valid() && Stream() == Flat(arrivals)
    {
      this.arrivals := arrivals;
    }

    predicate Valid()
      reads this
    {
      forall i :: 0 <= i < |arrivals| ==> arrivals[i] != []
    }

    ghost function Stream(): seq<byte>
      reads this
    {
      Flat(arrivals)
    }

    // What is in the buffer, empty only at the end of the stream.
    method FillBuf() returns (available: seq<byte>)
      requires Valid()
      ensures available <= Stream()
      ensures available == [] <==> Stream() == []
      ensures available != [] ==> arrivals != [] && available == arrivals[0]
    {
      if arrivals == [] {
        return [];
      }
      return arrivals[0];
    }

    // Up to `room` bytes, and none only if there is no room or nothing left.
    method Read(room: nat) returns (chunk: seq<byte>)
      requires Valid()
      modifies this
      ensures Valid() && |chunk| <= room && chunk + Stream() == old(Stream())
      ensures chunk == [] ==> room == 0 || Stream() == []
    {
      hide Flat;
      var available := FillBuf();
      var n := if |available| < room then |available| else room;
      chunk := available[..n];
      Slices([], Stream(), available, n);
      Consume(n);
    }

    method Consume(n: nat)
      requires Valid() && (n == 0 || (arrivals != [] && n <= |arrivals[0]|))
      modifies this
      ensures Valid() && n <= |old(Stream())| && Stream() == old(Stream())[n..]
    {
      if n > 0 {
        ghost var rest := Flat(arrivals[1..]);
        assert Stream() == arrivals[0] + rest;
        if n == |arrivals[0]| {
          arrivals := arrivals[1..];
        } else {
          ghost var was := arrivals;
          arrivals := [arrivals[0][n..]] + arrivals[1..];
          assert arrivals[1..] == was[1..];
          assert was[0][n..] + rest == (was[0] + rest)[n..];
        }
      }
    }
  }

  lemma Slices(read: seq<byte>, unread: seq<byte>, chunk: seq<byte>, n: nat)
    requires chunk <= unread && n <= |chunk|
    ensures chunk[..n] == unread[..n]
    ensures (read + chunk[..n]) + unread[n..] == read + unread
    ensures read + chunk[..n] <= read + unread
    ensures (read + unread)[|read| + n..] == unread[n..]
  {
    assert unread[..n] + unread[n..] == unread;
  }

  // Looking back three bytes finds the same terminator as searching from the start.
  lemma OverlapSuffices(head: seq<byte>, more: seq<byte>)
    requires FirstEnd(head, 0).None?
    ensures var from := if |head| < 3 then 0 else |head| - 3;
            FirstEnd(head + more, 0) == FirstEnd(head + more, from)
    ensures FirstEnd(head + more, 0).Some? ==> FirstEnd(head + more, 0).value > |head|
  {
    var grown := head + more;
    forall i: nat | i + 4 <= |head|
      ensures !EndsHere(grown, i)
    {
      assert grown[i..i + 4] == head[i..i + 4];
      assert !EndsHere(head, i);
    }
    var from := if |head| < 3 then 0 else |head| - 3;
    SkipTo(grown, 0, from);
  }

  lemma {:induction false} SkipTo(s: seq<byte>, from: nat, later: nat)
    requires from <= later <= |s| && forall i: nat :: from <= i < later ==> !EndsHere(s, i)
    ensures FirstEnd(s, from) == FirstEnd(s, later)
    decreases later - from
  {
    if from < later {
      assert !EndsHere(s, from);
      SkipTo(s, from + 1, later);
    }
  }

  lemma FirstEndIs(s: seq<byte>, end: nat)
    requires 4 <= end <= |s| && EndsHere(s, end - 4) && forall i: nat :: i < end - 4 ==> !EndsHere(s, i)
    ensures FirstEnd(s, 0) == Some(end)
  {
    hide EndsHere;
    var first := FirstEnd(s, 0);
    assert first.Some? ==> EndsHere(s, first.value - 4);
  }

  lemma EndsTogether(read: seq<byte>, stream: seq<byte>, i: nat)
    requires read <= stream && i + 4 <= |read|
    ensures EndsHere(read, i) <==> EndsHere(stream, i)
  {
    assert read[i..i + 4] == stream[i..i + 4];
  }

  // A terminator found in what has been read is the stream's first.
  lemma FoundInStream(read: seq<byte>, stream: seq<byte>)
    requires read <= stream
    ensures FirstEnd(read, 0).Some? ==> FirstEnd(stream, 0) == FirstEnd(read, 0)
    ensures FirstEnd(read, 0).None? && FirstEnd(stream, 0).Some? ==> FirstEnd(stream, 0).value > |read|
  {
    hide EndsHere, FirstEnd;
    forall i: nat | i + 4 <= |read|
      ensures EndsHere(read, i) <==> EndsHere(stream, i)
    {
      EndsTogether(read, stream, i);
    }
    if FirstEnd(read, 0).Some? {
      FirstEndIs(stream, FirstEnd(read, 0).value);
    } else if FirstEnd(stream, 0).Some? {
      var i := FirstEnd(stream, 0).value - 4;
      assert EndsHere(stream, i);
    }
  }

  // The three ways the loop stops.
  lemma StopsAtTerminator(stream: seq<byte>, head: seq<byte>, maxHead: nat)
    requires head <= stream && FirstEnd(head, 0).Some? && |head| <= maxHead
    ensures var end := FirstEnd(head, 0).value; HeadOf(stream, maxHead) == (Ok(head[..end]), stream[end..])
  {
    hide EndsHere, FirstEnd;
    FoundInStream(head, stream);
    var end := FirstEnd(head, 0).value;
    assert stream[..end] == head[..end];
  }

  lemma StopsAtLimit(stream: seq<byte>, head: seq<byte>, maxHead: nat)
    requires head <= stream && FirstEnd(head, 0).None? && |head| == maxHead && stream != []
    ensures HeadOf(stream, maxHead) == (Err(HeadTooLarge), stream[maxHead..])
  {
    hide EndsHere, FirstEnd;
    FoundInStream(head, stream);
  }

  lemma StopsAtEnd(stream: seq<byte>, maxHead: nat)
    requires FirstEnd(stream, 0).None? && (stream == [] || |stream| < maxHead)
    ensures HeadOf(stream, maxHead)
         == (Err(if stream == [] then Incomplete else Malformed("head ended without a blank line")), [])
  {
  }

  /**
   Reads a head one arrival at a time, starting each search three bytes early
   so that a terminator split between arrivals is still seen. The result and
   what is left unread depend on the stream alone, not on how it arrived.
   */
  method ReadHead(reader: Reader, maxHead: nat) returns (r: Result<seq<byte>, HttpError>)
    requires reader.Valid()
    modifies reader
    ensures reader.Valid()
    ensures (r, reader.Stream()) == HeadOf(old(reader.Stream()), maxHead)
  {
    hide FirstEnd, EndsHere, Flat, HeadOf;
    ghost var stream := reader.Stream();
    var head: seq<byte> := [];
    NothingEnds();
    while true
      invariant reader.Valid() && head + reader.Stream() == stream
      invariant FirstEnd(head, 0).None? && (head == [] || |head| < maxHead)
      decreases |reader.Stream()|
    {
      var available := reader.FillBuf();
      if available == [] {
        assert head == stream;
        StopsAtEnd(stream, maxHead);
        return Err(if head == [] then Incomplete else Malformed("head ended without a blank line"));
      }
      var overlap := if |head| < |TERMINATOR| - 1 then |head| else |TERMINATOR| - 1;
      var searchFrom := |head| - overlap;
      var room := if maxHead > |head| then maxHead - |head| else 0;
      var take := if |available| < room then |available| else room;
      OverlapSuffices(head, available[..take]);
      Slices(head, reader.Stream(), available, take);
      ghost var before, unread := head, reader.Stream();
      head := head + available[..take];
      var found := FirstEnd(head, searchFrom);
      if found.Some? {
        var end := found.value;
        StopsAtTerminator(stream, head, maxHead);
        Slices(before, unread, available, end - |before|);
        reader.Consume(end - searchFrom - overlap);
        head := head[..end];
        return Ok(head);
      }
      reader.Consume(take);
      if |head| >= maxHead {
        StopsAtLimit(stream, head, maxHead);
        return Err(HeadTooLarge);
      }
    }
  }

  lemma NothingEnds()
    ensures FirstEnd([], 0).None?
  {
  }

  method CopyInto(body: array<byte>, at: nat, bytes: seq<byte>)
    requires at + |bytes| <= body.Length
    modifies body
    ensures body[..at + |bytes|] == old(body[..at]) + bytes
  {
    forall i | 0 <= i < |bytes| {
      body[at + i] := bytes[i];
    }
  }

  lemma Regroup(read: seq<byte>, chunk: seq<byte>, rest: seq<byte>)
    ensures (read + chunk) + rest == read + (chunk + rest)
  {
  }

  lemma BodyStops(stream: seq<byte>, read: seq<byte>, unread: seq<byte>, declared: nat)
    requires read + unread == stream
    ensures |read| == declared ==> BodyOf(stream, declared) == (Ok(read), unread)
    ensures |read| < declared && unread == [] ==> BodyOf(stream, declared) == (Err(IncompleteBody), unread)
  {
    assert stream[..|read|] == read && stream[|read|..] == unread;
  }

  /** Reads exactly the declared number of bytes into a buffer, in as many pieces as they come. */
  method ReadBody(reader: Reader, declared: nat) returns (r: Result<seq<byte>, HttpError>)
    requires reader.Valid()
    modifies reader
    ensures reader.Valid()
    ensures (r, reader.Stream()) == BodyOf(old(reader.Stream()), declared)
  {
    hide Flat, BodyOf;
    ghost var stream := reader.Stream();
    var body := new byte[declared](_ => 0);
    var filled := 0;
    assert body[..0] == [];
    ghost var read: seq<byte> := [];
    while filled < declared
      invariant reader.Valid() && filled <= declared
      invariant body[..filled] == read && read + reader.Stream() == stream
      modifies reader, body
    {
      var chunk := reader.Read(declared - filled);
      if chunk == [] {
        BodyStops(stream, read, [], declared);
        return Err(IncompleteBody);
      }
      Regroup(read, chunk, reader.Stream());
      CopyInto(body, filled, chunk);
      filled := filled + |chunk|;
      read := read + chunk;
    }
    BodyStops(stream, read, reader.Stream(), declared);
    assert body[..] == body[..filled];
    return Ok(body[..]);
  }
}
