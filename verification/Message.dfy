/**
 Reassembly of a message body from the chunks in which it arrives (message.h, envelope.h);
 section 4.2.6.2 of AMQP 0-9-1. A body that arrives in one chunk is not copied: the message
 then refers to the caller's buffer.
 */
module Messages {
  import opened Basics
  import opened Wire

  // Bodies as values

  /** Where the body is: nowhere yet, in a caller's buffer, or in memory of the message's own. */
  datatype Body = Missing | Borrowed(view: bytes) | Collected(filled: bytes)

  /** One append; true if the message claims to be complete. */
  function Appended(size: nat, body: Body, chunk: bytes): (Body, bool) {
    match body
    case Collected(filled) =>
      var n := Min(|chunk|, size - |filled|);
      var all := filled + chunk[..if n < 0 then 0 else n];
      (Collected(all), |all| >= size)
    case _ =>
      if |chunk| >= size then (Borrowed(chunk), size == 0)
      else (Collected(chunk), false)
  }

  function Concatenated(chunks: seq<bytes>): bytes {
    if chunks == [] then [] else Concatenated(chunks[..|chunks| - 1]) + chunks[|chunks| - 1]
  }

  function Run(size: nat, chunks: seq<bytes>): Body {
    if chunks == [] then Missing
    else Appended(size, Run(size, chunks[..|chunks| - 1]), chunks[|chunks| - 1]).0
  }

  /** Only the last chunk reaches the announced size. */
  predicate LastReaches(size: nat, chunks: seq<bytes>) {
    && chunks != [] && |Concatenated(chunks)| >= size
    && (|chunks| > 1 ==> |Concatenated(chunks[..|chunks| - 1])| < size)
  }

  /** While the size has not been reached, the body is everything so far, collected from the second chunk on. */
  lemma {:induction false} PartialBody(size: nat, chunks: seq<bytes>)
    requires |Concatenated(chunks)| < size
    ensures Run(size, chunks) == if chunks == [] then Missing else Collected(Concatenated(chunks))
  {
    if chunks != [] {
      var before, chunk := chunks[..|chunks| - 1], chunks[|chunks| - 1];
      PartialBody(size, before);
      assert chunk[..|chunk|] == chunk;
      assert [] + chunk == chunk;
    }
  }

  lemma PartialBodyOrEmpty(size: nat, before: seq<bytes>)
    requires before != [] ==> |Concatenated(before)| < size
    ensures Run(size, before) == if before == [] then Missing else Collected(Concatenated(before))
  {
    if before != [] {
      PartialBody(size, before);
    }
  }

  /** The first size bytes of the body are those of the concatenated chunks, on both paths. */
  lemma CompleteBody(size: nat, chunks: seq<bytes>)
    requires LastReaches(size, chunks)
    ensures var before, all := chunks[..|chunks| - 1], Concatenated(chunks);
            Run(size, chunks) == if before == [] then Borrowed(all) else Collected(all[..size])
  {
    var before, chunk := chunks[..|chunks| - 1], chunks[|chunks| - 1];
    PartialBodyOrEmpty(size, before);
    if before == [] {
      assert [] + chunk == chunk;
    } else {
      var done := Concatenated(before);
      assert (done + chunk)[..size] == done + chunk[..size - |done|];
    }
  }

  /** Once collected to its size, the body is left alone by whatever else arrives. */
  lemma CollectedIsFinal(size: nat, filled: bytes, chunk: bytes)
    requires |filled| == size
    ensures Appended(size, Collected(filled), chunk) == (Collected(filled), true)
  {
    assert filled + chunk[..0] == filled;
  }

  /** On the copying path append answers true exactly when the total has reached the size. */
  lemma CopyingClaim(size: nat, chunks: seq<bytes>)
    requires |chunks| > 1 && |Concatenated(chunks[..|chunks| - 1])| < size
    ensures var before, chunk := chunks[..|chunks| - 1], chunks[|chunks| - 1];
            Appended(size, Run(size, before), chunk).1 <==> |Concatenated(chunks)| >= size
  {
    PartialBody(size, chunks[..|chunks| - 1]);
  }

  // Any sequence of chunks

  /** The chunks that arrive before the first one below the size: each is borrowed, and replaces the one before. */
  function Whole(size: nat, chunks: seq<bytes>): (n: nat)
    ensures n <= |chunks|
    ensures forall i :: 0 <= i < n ==> |chunks[i]| >= size
    ensures n < |chunks| ==> |chunks[n]| < size
  {
    if chunks == [] || |chunks[0]| < size then 0 else 1 + Whole(size, chunks[1..])
  }

  lemma {:induction false} WholeOfPrefix(size: nat, chunks: seq<bytes>, k: nat)
    requires k <= |chunks|
    ensures Whole(size, chunks[..k]) == Min(k, Whole(size, chunks))
  {
    if k > 0 && |chunks[0]| >= size {
      WholeOfPrefix(size, chunks[1..], k - 1);
      assert chunks[..k][1..] == chunks[1..][..k - 1];
    }
  }

  /**
   The body after any chunks at all: the last one as long as none was below the size, and from the
   first one below it on, the first size bytes of what arrived since.
   */
  lemma {:induction false} BodyOfAnyRun(size: nat, chunks: seq<bytes>)
    ensures var n, last := Whole(size, chunks), |chunks| - 1;
            Run(size, chunks) == if chunks == [] then Missing
                                 else if n == |chunks| then Borrowed(chunks[last])
                                 else Collected(Prefix(Concatenated(chunks[n..]), size))
  {
    if chunks != [] {
      var last := |chunks| - 1;
      var before, chunk, n := chunks[..last], chunks[last], Whole(size, chunks);
      BodyOfAnyRun(size, before);
      WholeOfPrefix(size, chunks, last);
      if n <= last {
        ConcatenatedGrows(chunks, n);
        CollectingMore(size, Concatenated(before[n..]), chunk);
      }
    }
  }

  lemma ConcatenatedGrows(chunks: seq<bytes>, n: nat)
    requires n < |chunks|
    ensures Concatenated(chunks[n..]) == Concatenated(chunks[..|chunks| - 1][n..]) + chunks[|chunks| - 1]
  {
    assert chunks[n..][..|chunks[n..]| - 1] == chunks[..|chunks| - 1][n..];
  }

  lemma ConcatenatedNone()
    ensures Concatenated([]) == []
  {
  }

  function Prefix(bs: bytes, size: nat): bytes {
    bs[..Min(size, |bs|)]
  }

  lemma CollectingMore(size: nat, done: bytes, chunk: bytes)
    ensures Appended(size, Collected(Prefix(done, size)), chunk).0 == Collected(Prefix(done + chunk, size))
  {
    if |done| < size {
      var n := Min(|chunk|, size - |done|);
      assert (done + chunk)[..|done| + n] == done + chunk[..n];
    } else {
      assert (done + chunk)[..size] == done[..size] + chunk[..0];
    }
  }

  /** The answer counts what arrived from the first chunk below the size on. */
  lemma ClaimOfAnyRun(size: nat, chunks: seq<bytes>)
    requires chunks != []
    ensures Appended(size, Run(size, chunks[..|chunks| - 1]), chunks[|chunks| - 1]).1
       <==> |Concatenated(chunks[Whole(size, chunks)..])| >= size
  {
    var last := |chunks| - 1;
    var before, chunk, n := chunks[..last], chunks[last], Whole(size, chunks);
    BodyOfAnyRun(size, before);
    WholeOfPrefix(size, chunks, last);
    hide Run, Whole, Concatenated;
    ConcatenatedNone();
    if n <= last {
      ConcatenatedGrows(chunks, n);
    } else {
      assert chunks[n..] == [];
    }
  }

  /**
   The answer of append, after any chunks, is right exactly if the body is empty, or nothing was
   borrowed, or what came after the borrowed chunks reaches the size by itself.
   */
  lemma ClaimIsRightIff(size: nat, chunks: seq<bytes>)
    requires chunks != []
    ensures var before, chunk, n := chunks[..|chunks| - 1], chunks[|chunks| - 1], Whole(size, chunks);
            var claim := Appended(size, Run(size, before), chunk).1;
            (claim <==> |Concatenated(chunks)| >= size)
            <==> size == 0 || n == 0 || |Concatenated(chunks[n..])| >= size
  {
    var n := Whole(size, chunks);
    hide Appended, Run, Whole;
    ClaimOfAnyRun(size, chunks);
    ConcatenatedInOrder(chunks[..n], chunks[n..]);
    assert chunks == chunks[..n] + chunks[n..];
    if n > 0 {
      ConcatenatedInOrder([chunks[0]], chunks[1..n]);
      assert chunks[..n] == [chunks[0]] + chunks[1..n];
      assert Concatenated([chunks[0]]) == [] + chunks[0];
    } else {
      assert chunks[n..] == chunks;
    }
  }

  lemma {:induction false} ConcatenatedInOrder(a: seq<bytes>, b: seq<bytes>)
    ensures Concatenated(a + b) == Concatenated(a) + Concatenated(b)
  {
    if b == [] {
      assert a + b == a;
    } else {
      ConcatenatedInOrder(a, b[..|b| - 1]);
      assert (a + b)[..|a + b| - 1] == a + b[..|b| - 1];
    }
  }

  // The object

  class Message {
    const sizeMax: nat           // the largest size_t of the platform
    var bodySize: nat
    var mutableBody: array?<byte>
    var body: array?<byte>
    var filled: nat

    ghost predicate Valid()
      reads this
    {
      && bodySize <= sizeMax
      && (mutableBody == null ==> filled == 0)
      && (mutableBody != null ==> body == mutableBody && filled <= mutableBody.Length)
    }

    /** The announced size is one for which an allocated body has room. */
    ghost predicate Fits()
      reads this
    {
      mutableBody != null ==> filled <= bodySize <= mutableBody.Length
    }

    /** The value of the body; a borrowed one is whatever the caller's buffer holds now. */
    ghost function State(): Body
      requires Valid()
      reads this, body
    {
      if body == null then Missing
      else if mutableBody == null then Borrowed(body[..])
      else Collected(body[..filled])
    }

    constructor (sizeMax: nat)
      ensures Valid() && this.sizeMax == sizeMax && State() == Missing && bodySize == 0
      ensures mutableBody == null
    {
      this.sizeMax := sizeMax;
      bodySize, filled, mutableBody, body := 0, 0, null, null;
    }

    /** setBodySize; false where it throws because the size does not fit a size_t. */
    method SetBodySize(size: nat) returns (ok: bool)
      requires Valid()
      modifies this`bodySize
      ensures ok == (size <= sizeMax)
      ensures Valid() && bodySize == if ok then size else old(bodySize)
      ensures State() == old(State())
    {
      ok := size <= sizeMax;
      if ok {
        bodySize := size;
      }
    }

    /** append: the copies stay inside the allocation, the zero-copy path keeps the buffer. */
    method Append(buffer: array<byte>) returns (complete: bool)
      requires Valid() && Fits() && buffer != mutableBody
      modifies this`mutableBody, this`body, this`filled, mutableBody
      ensures Valid() && Fits() && bodySize == old(bodySize)
      ensures State() == old(Appended(bodySize, State(), buffer[..])).0
      ensures complete == old(Appended(bodySize, State(), buffer[..])).1
      ensures mutableBody == null ==> body == buffer
      ensures if old(mutableBody) != null then mutableBody == old(mutableBody)
              else mutableBody != null ==> fresh(mutableBody)
    {
      var size := buffer.Length;
      if mutableBody != null {
        size := Min(size, bodySize - filled);
        Copy(buffer, size, mutableBody, filled);
        filled := filled + size;
      } else if size >= bodySize {
        body := buffer;
      } else {
        mutableBody := new byte[bodySize];
        body := mutableBody;
        filled := Min(size, bodySize);
        Copy(buffer, filled, mutableBody, 0);
        assert body[..filled] == buffer[..];
      }
      complete := filled >= bodySize;
    }
  }

  /** A message of the given size that has received these chunks, and its last answer. */
  method Receive(sizeMax: nat, size: nat, chunks: seq<bytes>) returns (m: Message, complete: bool)
    requires size <= sizeMax
    ensures m.Valid() && m.bodySize == size && m.State() == Run(size, chunks)
    ensures chunks != [] ==> complete == (|Concatenated(chunks[Whole(size, chunks)..])| >= size)
  {
    m := new Message(sizeMax);
    complete := false;
    var ok := m.SetBodySize(size);
    for i := 0 to |chunks|
      invariant fresh(m) && m.Valid() && m.Fits() && m.bodySize == size
      invariant m.mutableBody != null ==> fresh(m.mutableBody)
      invariant m.State() == Run(size, chunks[..i])
      invariant i > 0 ==> complete == Appended(size, Run(size, chunks[..i - 1]), chunks[i - 1]).1
    {
      var chunk := chunks[i];
      var buffer := new byte[|chunk|](j requires 0 <= j < |chunk| => chunk[j]);
      assert buffer[..] == chunk;
      assert chunks[..i + 1][..i] == chunks[..i];
      complete := m.Append(buffer);
    }
    assert chunks[..|chunks|] == chunks;
    if chunks != [] {
      ClaimOfAnyRun(size, chunks);
    }
  }

  /** memcpy(to + at, from, n) */
  method Copy(from: array<byte>, n: nat, to: array<byte>, at: nat)
    requires from != to && n <= from.Length && at + n <= to.Length
    modifies to
    ensures to[..at] == old(to[..at]) && to[at..at + n] == from[..n]
    ensures to[..at + n] == old(to[..at]) + from[..n]
    ensures to[at + n..] == old(to[at + n..])
  {
    forall i | 0 <= i < n {
      to[at + i] := from[i];
    }
    assert to[at..at + n] == from[..n];
  }
}
