/**
 * The stream interceptor of one output channel: read a chunk of at most
 * 4096 bytes from the pseudo-terminal master, decode it, rewrite it with every
 * rule of every profile, normalise its lines, and write the result in full;
 * stop at the first zero-length read or read error.
 *
 * The source is the sequence of results the successive `read` calls
 * return. The sink is the number of bytes each successive `write` call
 * accepts, given the buffer it is offered.
 */
module Intercept {
  import opened Utf8
  import opened Config
  import Rewrite
  import Lines

  /** The size of the read buffer. */
  const BUF: nat := 4096

  /** What one read can deliver: never more than the buffer holds. */
  type Chunk = s: seq<byte> | |s| <= BUF witness []

  datatype ReadResult = ReadOk(bytes: Chunk) | ReadErr(errno: int)

  /** A zero-length read or a read error ends the session. */
  predicate EndOfChannel(r: ReadResult)
  {
    r.ReadErr? || |r.bytes| == 0
  }

  /** No read of the sequence ends the session. */
  predicate Open(results: seq<ReadResult>)
  {
    forall k :: 0 <= k < |results| ==> !EndOfChannel(results[k])
  }

  /** Permissive decoding of a chunk (`String::from_utf8_lossy`). */
  type Decoder = seq<byte> -> string

  /** The rewritten text of one chunk, before line normalisation. */
  function Rewritten(profiles: seq<Profile>, decode: Decoder, subst: Rewrite.Substitution, chunk: seq<byte>): string
  {
    Rewrite.ApplyRules(Rewrite.SelectRules(profiles), decode(chunk), subst)
  }

  /** The bytes written for one chunk. */
  function Transform(profiles: seq<Profile>, decode: Decoder, subst: Rewrite.Substitution, chunk: seq<byte>): seq<byte>
  {
    Encode(Lines.Normalize(Rewritten(profiles, decode, subst, chunk)))
  }

  /** Reference: the bytes a session writes, chunk by chunk in read order, up
      to the first read that ends the session. */
  function Emitted(results: seq<ReadResult>, profiles: seq<Profile>, decode: Decoder, subst: Rewrite.Substitution): seq<byte>
  {
    if |results| == 0 || EndOfChannel(results[0]) then []
    else Transform(profiles, decode, subst, results[0].bytes) + Emitted(results[1..], profiles, decode, subst)
  }

  /** The number of bytes the sink accepts at the k-th write call when offered b. */
  type Sink = (nat, seq<byte>) -> nat

  /** Every write of a non-empty buffer accepts at least one and at most all of its bytes. */
  ghost predicate Progresses(sink: Sink)
  {
    forall k: nat, b: seq<byte> :: |b| > 0 ==> 1 <= sink(k, b) <= |b|
  }

  function Concat(pieces: seq<seq<byte>>): seq<byte>
  {
    if |pieces| == 0 then [] else pieces[0] + Concat(pieces[1..])
  }

  /** Reference: the pieces the successive write calls accept, starting with call number `first`. */
  function Writes(data: seq<byte>, sink: Sink, first: nat): seq<seq<byte>>
    requires Progresses(sink)
    decreases |data|
  {
    if |data| == 0 then []
    else
      var n := sink(first, data);
      [data[..n]] + Writes(data[n..], sink, first + 1)
  }

  /** The pieces the write calls accept are non-empty, there are at most as
      many calls as bytes, and together they are exactly the data, in order. */
  lemma {:induction false} WritesDeliver(data: seq<byte>, sink: Sink, first: nat)
    requires Progresses(sink)
    ensures Concat(Writes(data, sink, first)) == data
    ensures |Writes(data, sink, first)| <= |data|
    ensures forall k :: 0 <= k < |Writes(data, sink, first)| ==> |Writes(data, sink, first)[k]| > 0
    decreases |data|
  {
    if |data| > 0 {
      var n := sink(first, data);
      var rest := Writes(data[n..], sink, first + 1);
      WritesDeliver(data[n..], sink, first + 1);
      assert ([data[..n]] + rest)[1..] == rest;
      assert data[..n] + data[n..] == data;
    }
  }

  /** The write loop: re-issue the write with the unwritten remainder until
      nothing is left. An empty buffer issues no write at all. */
  method WriteAll(data: seq<byte>, sink: Sink, first: nat) returns (delivered: seq<byte>, calls: seq<seq<byte>>)
    requires Progresses(sink)
    ensures delivered == data
    ensures calls == Writes(data, sink, first)
    ensures |calls| == 0 <==> |data| == 0
  {
    var remaining := data;
    delivered := [];
    calls := [];
    while |remaining| > 0
      invariant delivered + remaining == data
      invariant calls + Writes(remaining, sink, first + |calls|) == Writes(data, sink, first)
      invariant |calls| == 0 <==> |delivered| == 0
      decreases |remaining|
    {
      var n := sink(first + |calls|, remaining);
      WritesStep(remaining, sink, first + |calls|);
      ghost var later := Writes(remaining[n..], sink, first + |calls| + 1);
      assert (calls + [remaining[..n]]) + later == calls + ([remaining[..n]] + later);
      assert remaining[..n] + remaining[n..] == remaining;
      calls := calls + [remaining[..n]];
      delivered := delivered + remaining[..n];
      remaining := remaining[n..];
    }
  }

  /** One write call: the accepted prefix, then the calls for the remainder. */
  lemma {:induction false} WritesStep(data: seq<byte>, sink: Sink, first: nat)
    requires Progresses(sink) && |data| > 0
    ensures 1 <= sink(first, data) <= |data|
    ensures Writes(data, sink, first)
         == [data[..sink(first, data)]] + Writes(data[sink(first, data)..], sink, first + 1)
  {
  }

  /** One chunk of the session: its transform, then the rest of the session. */
  lemma {:induction false} EmittedStep(results: seq<ReadResult>, i: nat, profiles: seq<Profile>, decode: Decoder, subst: Rewrite.Substitution)
    requires i < |results| && !EndOfChannel(results[i])
    ensures Emitted(results[i..], profiles, decode, subst)
         == Transform(profiles, decode, subst, results[i].bytes) + Emitted(results[i + 1..], profiles, decode, subst)
  {
    assert results[i..][0] == results[i];
    assert results[i..][1..] == results[i + 1..];
  }

  /** The read loop of `cpoverride`. */
  method Intercept(results: seq<ReadResult>, profiles: seq<Profile>, decode: Decoder,
                   subst: Rewrite.Substitution, sink: Sink)
    returns (written: seq<byte>, served: nat)
    requires exists k :: 0 <= k < |results| && EndOfChannel(results[k])
    requires Progresses(sink)
    ensures served < |results| && EndOfChannel(results[served])
    ensures Open(results[..served])
    ensures written == Emitted(results, profiles, decode, subst)
  {
    written := [];
    ghost var end :| 0 <= end < |results| && EndOfChannel(results[end]);
    var i := 0;
    var calls: nat := 0;
    while !EndOfChannel(results[i])
      invariant i <= end
      invariant Open(results[..i])
      invariant written + Emitted(results[i..], profiles, decode, subst) == Emitted(results, profiles, decode, subst)
      decreases end - i
    {
      var output := Rewrite.RewriteChunk(profiles, decode(results[i].bytes), subst);
      var delivered, pieces := WriteAll(Encode(Lines.Normalize(output)), sink, calls);
      InterceptStep(results, i, profiles, decode, subst, written, delivered);
      written := written + delivered;
      calls := calls + |pieces|;
      i := i + 1;
    }
    served := i;
  }

  /** One round of the read loop keeps its invariant: the chunk's transform
      is appended, and the chunk joins the reads that did not end the session. */
  lemma {:induction false} InterceptStep(results: seq<ReadResult>, i: nat, profiles: seq<Profile>, decode: Decoder,
                                         subst: Rewrite.Substitution, written: seq<byte>, delivered: seq<byte>)
    requires i < |results| && !EndOfChannel(results[i]) && Open(results[..i])
    requires written + Emitted(results[i..], profiles, decode, subst) == Emitted(results, profiles, decode, subst)
    requires delivered == Transform(profiles, decode, subst, results[i].bytes)
    ensures Open(results[..i + 1])
    ensures (written + delivered) + Emitted(results[i + 1..], profiles, decode, subst) == Emitted(results, profiles, decode, subst)
  {
    EmittedStep(results, i, profiles, decode, subst);
    assert results[..i + 1] == results[..i] + [results[i]];
  }

  /** A session's output is the concatenation of its parts, as long as the
      first part contains no read that ends the session. */
  lemma {:induction false} EmittedAppend(p: seq<ReadResult>, q: seq<ReadResult>,
                                          profiles: seq<Profile>, decode: Decoder, subst: Rewrite.Substitution)
    requires Open(p)
    ensures Emitted(p + q, profiles, decode, subst) == Emitted(p, profiles, decode, subst) + Emitted(q, profiles, decode, subst)
  {
    if |p| == 0 {
      assert p + q == q;
    } else {
      assert (p + q)[0] == p[0];
      assert (p + q)[1..] == p[1..] + q;
      assert Open(p[1..]) by {
        forall k | 0 <= k < |p[1..]| ensures !EndOfChannel(p[1..][k]) {
          assert p[1..][k] == p[k + 1];
        }
      }
      EmittedAppend(p[1..], q, profiles, decode, subst);
    }
  }

  /** After a zero-length read or a read error nothing more is written,
      whatever the later reads would have returned. */
  lemma {:induction false} EndSilences(p: seq<ReadResult>, e: ReadResult, tail: seq<ReadResult>,
                    profiles: seq<Profile>, decode: Decoder, subst: Rewrite.Substitution)
    requires Open(p) && EndOfChannel(e)
    ensures Emitted(p + [e] + tail, profiles, decode, subst) == Emitted(p, profiles, decode, subst)
  {
    assert p + [e] + tail == p + ([e] + tail);
    EmittedAppend(p, [e] + tail, profiles, decode, subst);
  }

  /** The bytes written for a chunk do not depend on the profiles' `program`
      and `argmatch` fields. */
  lemma {:induction false} TransformIgnoresMatchers(ps: seq<Profile>, qs: seq<Profile>, decode: Decoder,
                                 subst: Rewrite.Substitution, chunk: seq<byte>)
    requires |ps| == |qs|
    requires forall i :: 0 <= i < |ps| ==> ps[i].rules == qs[i].rules
    ensures Transform(ps, decode, subst, chunk) == Transform(qs, decode, subst, chunk)
  {
    Rewrite.SelectionIgnoresMatchers(ps, qs);
  }

  /** Rewritten text without carriage returns that ends in a line feed. */
  predicate Terminated(t: string)
  {
    Lines.CR !in t && |t| > 0 && t[|t| - 1] == Lines.LF
  }

  /** The rewritten texts of a session's chunks, concatenated. */
  function Unchunked(results: seq<ReadResult>, profiles: seq<Profile>, decode: Decoder, subst: Rewrite.Substitution): string
  {
    if |results| == 0 || EndOfChannel(results[0]) then []
    else Rewritten(profiles, decode, subst, results[0].bytes) + Unchunked(results[1..], profiles, decode, subst)
  }

  /** The rewritten texts of a session's chunks, each without its final line feed. */
  function Trimmed(results: seq<ReadResult>, profiles: seq<Profile>, decode: Decoder, subst: Rewrite.Substitution): string
  {
    if |results| == 0 || EndOfChannel(results[0]) then []
    else Lines.DropFinalLf(Rewritten(profiles, decode, subst, results[0].bytes)) + Trimmed(results[1..], profiles, decode, subst)
  }

  /** When every chunk's rewritten text has no carriage return and ends in a
      line feed, each chunk loses that line feed at its boundary: the session
      writes the trimmed texts, one byte per chunk shorter than the
      concatenated rewritten texts. */
  lemma {:induction false} ChunkBoundaryNewlineLoss(results: seq<ReadResult>, profiles: seq<Profile>,
                                                     decode: Decoder, subst: Rewrite.Substitution)
    requires Open(results)
    requires forall k :: 0 <= k < |results| ==> Terminated(Rewritten(profiles, decode, subst, results[k].bytes))
    ensures Emitted(results, profiles, decode, subst) == Encode(Trimmed(results, profiles, decode, subst))
    ensures |Emitted(results, profiles, decode, subst)| + |results| == |Encode(Unchunked(results, profiles, decode, subst))|
  {
    if |results| > 0 {
      var rest := results[1..];
      assert forall k :: 0 <= k < |rest| ==> rest[k] == results[k + 1];
      ChunkBoundaryNewlineLoss(rest, profiles, decode, subst);
      ChunkBoundaryStep(results, profiles, decode, subst);
    }
  }

  /** The inductive step of `ChunkBoundaryNewlineLoss`: the first chunk. */
  lemma {:induction false} ChunkBoundaryStep(results: seq<ReadResult>, profiles: seq<Profile>,
                                              decode: Decoder, subst: Rewrite.Substitution)
    requires |results| > 0 && !EndOfChannel(results[0])
    requires Terminated(Rewritten(profiles, decode, subst, results[0].bytes))
    requires Emitted(results[1..], profiles, decode, subst) == Encode(Trimmed(results[1..], profiles, decode, subst))
    requires |Emitted(results[1..], profiles, decode, subst)| + |results[1..]| == |Encode(Unchunked(results[1..], profiles, decode, subst))|
    ensures Emitted(results, profiles, decode, subst) == Encode(Trimmed(results, profiles, decode, subst))
    ensures |Emitted(results, profiles, decode, subst)| + |results| == |Encode(Unchunked(results, profiles, decode, subst))|
  {
    var t := Rewritten(profiles, decode, subst, results[0].bytes);
    TerminatedChunk(t);
    Utf8.EncodeAppend(t[..|t| - 1], Trimmed(results[1..], profiles, decode, subst));
    Utf8.EncodeAppend(t, Unchunked(results[1..], profiles, decode, subst));
  }

  /** A terminated text is written without its final line feed, one byte shorter. */
  lemma {:induction false} TerminatedChunk(t: string)
    requires Terminated(t)
    ensures Lines.DropFinalLf(t) == t[..|t| - 1]
    ensures Encode(Lines.Normalize(t)) == Encode(t[..|t| - 1])
    ensures |Encode(t[..|t| - 1])| + 1 == |Encode(t)|
  {
    Lines.NormalizeWithoutCr(t);
    assert t == t[..|t| - 1] + [Lines.LF];
    Utf8.EncodeLineFeed(t[..|t| - 1]);
  }

  /** Two chunks "a\n" and "b\n" with no rules reach the terminal as "ab":
      both line feeds are lost, while the same text read as one chunk keeps
      the line feed between the lines. */
  lemma {:induction false} TwoChunksExample(decode: Decoder, subst: Rewrite.Substitution)
    requires decode([97, 10]) == "a\n" && decode([98, 10]) == "b\n" && decode([97, 10, 98, 10]) == "a\nb\n"
    ensures Emitted([ReadOk([97, 10]), ReadOk([98, 10]), ReadOk([])], [], decode, subst) == [97, 98]
    ensures Emitted([ReadOk([97, 10, 98, 10]), ReadOk([])], [], decode, subst) == [97, 10, 98]
  {
    TwoChunks(decode, subst);
    OneChunk(decode, subst);
  }

  /** "a\n" and "b\n" read as two chunks, without profiles. */
  lemma {:induction false} TwoChunks(decode: Decoder, subst: Rewrite.Substitution)
    requires decode([97, 10]) == "a\n" && decode([98, 10]) == "b\n"
    ensures Emitted([ReadOk([97, 10]), ReadOk([98, 10]), ReadOk([])], [], decode, subst) == [97, 98]
  {
    var a, b, end := ReadOk([97, 10]), ReadOk([98, 10]), ReadOk([]);
    ChunkWithoutRules(decode, subst, a.bytes, "a\n");
    ChunkWithoutRules(decode, subst, b.bytes, "b\n");
    assert "a\n"[..1] == "a" && "b\n"[..1] == "b";
    assert Encode("a") == [97] && Encode("b") == [98];
    EmittedEnd(end, [], [], decode, subst);
    EmittedFirst(b, [end], [], decode, subst);
    EmittedFirst(a, [b, end], [], decode, subst);
    assert [b] + [end] == [b, end] && [a] + [b, end] == [a, b, end];
  }

  /** "a\nb\n" read as one chunk, without profiles. */
  lemma {:induction false} OneChunk(decode: Decoder, subst: Rewrite.Substitution)
    requires decode([97, 10, 98, 10]) == "a\nb\n"
    ensures Emitted([ReadOk([97, 10, 98, 10]), ReadOk([])], [], decode, subst) == [97, 10, 98]
  {
    var ab, end := ReadOk([97, 10, 98, 10]), ReadOk([]);
    ChunkWithoutRules(decode, subst, ab.bytes, "a\nb\n");
    assert "a\nb\n"[..3] == "a\nb";
    assert Encode("a\nb") == [97, 10, 98];
    EmittedEnd(end, [], [], decode, subst);
    EmittedFirst(ab, [end], [], decode, subst);
    assert [ab] + [end] == [ab, end];
  }

  /** A read that does not end the session writes its transform first. */
  lemma {:induction false} EmittedFirst(r: ReadResult, rest: seq<ReadResult>, profiles: seq<Profile>,
                                         decode: Decoder, subst: Rewrite.Substitution)
    requires !EndOfChannel(r)
    ensures Emitted([r] + rest, profiles, decode, subst)
         == Transform(profiles, decode, subst, r.bytes) + Emitted(rest, profiles, decode, subst)
  {
    assert ([r] + rest)[1..] == rest;
  }

  /** A read that ends the session writes nothing, now or later. */
  lemma {:induction false} EmittedEnd(r: ReadResult, rest: seq<ReadResult>, profiles: seq<Profile>,
                                       decode: Decoder, subst: Rewrite.Substitution)
    requires EndOfChannel(r)
    ensures Emitted([r] + rest, profiles, decode, subst) == []
  {
  }

  /** Without profiles a terminated chunk is written as its text minus the final line feed. */
  lemma {:induction false} ChunkWithoutRules(decode: Decoder, subst: Rewrite.Substitution, chunk: Chunk, text: string)
    requires decode(chunk) == text && Terminated(text)
    ensures Transform([], decode, subst, chunk) == Encode(text[..|text| - 1])
  {
    assert Rewrite.SelectRules([]) == [];
    TerminatedChunk(text);
  }
}
