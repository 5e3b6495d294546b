/** The writer's side of the FIFO: what a trace of write(2) results lets through. */
module Fifo {
  import opened Pcm
  import opened Opus

  /** One result of write(2): a count of at most what was asked, or an errno. */
  datatype WriteResult = Wrote(n: nat) | EINTR | EAGAIN | EPIPE | OtherErrno

  /** How the loop over one chunk ends. */
  datatype PushEnd = Complete | Discarded | WouldBlock | Disconnected | Failed

  datatype Pushed = Pushed(offset: nat, end: PushEnd)

  /** How many bytes a call asked for `left` bytes lets through. */
  function LetsThrough(result: WriteResult, left: nat): nat {
    match result
    case Wrote(n) => if n <= left then n else left
    case _ => 0
  }

  /** How the loop ends after a call that put nothing in and was not interrupted. */
  function EndAfter(result: WriteResult): PushEnd {
    match result
    case EAGAIN => WouldBlock
    case EPIPE => Disconnected
    case OtherErrno => Failed
    case _ => Discarded
  }

  /**
   The loop that pushes one chunk, from offset on. EINTR asks again, EAGAIN and a zero count give
   the rest of the chunk up, any other error ends the run. A trace that ends early stands for a
   pipe that stays full.
   */
  function PushChunk(results: seq<WriteResult>, offset: nat, len: nat): (r: Pushed)
    requires offset <= len
    ensures offset <= r.offset <= len
    ensures r.end.Complete? <==> r.offset == len
    decreases |results|
  {
    if offset == len then Pushed(offset, Complete)
    else if results == [] then Pushed(offset, WouldBlock)
    else
      match results[0]
      case EINTR => PushChunk(results[1..], offset, len)
      case EAGAIN => Pushed(offset, WouldBlock)
      case EPIPE => Pushed(offset, Disconnected)
      case OtherErrno => Pushed(offset, Failed)
      case Wrote(_) =>
        var wrote := LetsThrough(results[0], len - offset);
        if wrote == 0 then Pushed(offset, Discarded)
        else PushChunk(results[1..], offset + wrote, len)
  }

  /** How often the loop calls write(2). */
  function Calls(results: seq<WriteResult>, offset: nat, len: nat): nat
    requires offset <= len
    decreases |results|
  {
    if offset == len then 0
    else if results == [] then 1
    else
      match results[0]
      case EINTR => 1 + Calls(results[1..], offset, len)
      case Wrote(_) =>
        var wrote := LetsThrough(results[0], len - offset);
        if wrote == 0 then 1 else 1 + Calls(results[1..], offset + wrote, len)
      case _ => 1
  }

  function Interrupts(results: seq<WriteResult>): nat {
    if results == [] then 0
    else (if results[0].EINTR? then 1 else 0) + Interrupts(results[1..])
  }

  /** However long the trace, the loop is over after one call for each byte and each interrupt. */
  lemma {:induction false} CallsAreBounded(results: seq<WriteResult>, offset: nat, len: nat)
    requires offset <= len
    ensures Calls(results, offset, len) <= len - offset + Interrupts(results)
    ensures PipeRule(results) && len <= FRAME_BYTES ==> Calls(results, offset, len) <= 1 + Interrupts(results)
    decreases |results|
  {
    if offset < len && results != [] {
      match results[0]
      case EINTR => CallsAreBounded(results[1..], offset, len);
      case Wrote(_) =>
        var wrote := LetsThrough(results[0], len - offset);
        if wrote > 0 {
          CallsAreBounded(results[1..], offset + wrote, len);
        }
      case _ =>
    }
  }

  /** The next call of a trace: it is interrupted, or makes progress, or ends the loop. */
  lemma OneCall(results: seq<WriteResult>, offset: nat, len: nat)
    requires offset < len
    ensures var result := if results == [] then EAGAIN else results[0];
      var next := offset + LetsThrough(result, len - offset);
      if result.EINTR? || offset < next then
        && results != [] && next <= len
        && PushChunk(results, offset, len) == PushChunk(results[1..], next, len)
        && Calls(results, offset, len) == 1 + Calls(results[1..], next, len)
        && Interrupts(results) == Interrupts(results[1..]) + (if result.EINTR? then 1 else 0)
      else
        Calls(results, offset, len) == 1 && PushChunk(results, offset, len) == Pushed(offset, EndAfter(result))
  {
  }

  lemma NothingLeft(results: seq<WriteResult>, len: nat)
    ensures PushChunk(results, len, len) == Pushed(len, Complete) && Calls(results, len, len) == 0
  {
  }

  /** The trace without the interrupted calls. */
  function Uninterrupted(results: seq<WriteResult>): seq<WriteResult> {
    if results == [] then []
    else (if results[0].EINTR? then [] else [results[0]]) + Uninterrupted(results[1..])
  }

  /** Signals are invisible: an interrupted write costs no byte and ends nothing. */
  lemma {:induction false} InterruptsInvisible(results: seq<WriteResult>, offset: nat, len: nat)
    requires offset <= len
    ensures PushChunk(results, offset, len) == PushChunk(Uninterrupted(results), offset, len)
    decreases |results|
  {
    if offset < len && results != [] {
      var rest := Uninterrupted(results[1..]);
      assert !results[0].EINTR? ==> Uninterrupted(results)[1..] == rest;
      assert results[0].EINTR? ==> Uninterrupted(results) == rest;
      match results[0]
      case EINTR => InterruptsInvisible(results[1..], offset, len);
      case Wrote(_) =>
        var wrote := LetsThrough(results[0], len - offset);
        if wrote > 0 {
          InterruptsInvisible(results[1..], offset + wrote, len);
        }
      case _ =>
    }
  }

  /** The counts up to the first one that is zero, full pipe or error; interrupts are skipped. */
  function Leading(results: seq<WriteResult>): nat {
    if results == [] then 0
    else
      match results[0]
      case EINTR => Leading(results[1..])
      case Wrote(n) => if n == 0 then 0 else n + Leading(results[1..])
      case _ => 0
  }

  /** For every trace: the offset reached is the sum of the leading counts, to the chunk's end at most. */
  lemma {:induction false} OffsetIsLeading(results: seq<WriteResult>, offset: nat, len: nat)
    requires offset <= len
    ensures PushChunk(results, offset, len).offset
         == if offset + Leading(results) <= len then offset + Leading(results) else len
    decreases |results|
  {
    if offset < len && results != [] {
      match results[0]
      case EINTR => OffsetIsLeading(results[1..], offset, len);
      case Wrote(n) =>
        if n > 0 {
          OffsetIsLeading(results[1..], offset + LetsThrough(results[0], len - offset), len);
        }
      case _ =>
    }
  }

  /**
   Exactly when a chunk goes in whole or leaves no byte behind; and exactly when a chunk of whole
   stereo samples leaves whole stereo samples in the FIFO.
   */
  lemma {:induction false} WholeIff(results: seq<WriteResult>, len: nat)
    ensures var r := PushChunk(results, 0, len);
      (r.offset == 0 || r.offset == len) <==> (Leading(results) == 0 || Leading(results) >= len)
    ensures len % 4 == 0 ==>
      (PushChunk(results, 0, len).offset % 4 == 0 <==> Leading(results) % 4 == 0 || Leading(results) >= len)
  {
    OffsetIsLeading(results, 0, len);
  }

  /**
   The rule for a non-blocking pipe in the write() page of POSIX.1-2017: a request of at most
   PIPE_BUF bytes is taken whole or not at all. A chunk has at most 3840 bytes and PIPE_BUF is at
   least that.
   */
  ghost predicate PipeRule(results: seq<WriteResult>) {
    forall i :: 0 <= i < |results| && results[i].Wrote? ==> results[i].n >= FRAME_BYTES
  }

  lemma {:induction false} LeadingOfPipe(results: seq<WriteResult>)
    requires PipeRule(results)
    ensures Leading(results) == 0 || Leading(results) >= FRAME_BYTES
  {
    if results != [] && results[0].EINTR? {
      LeadingOfPipe(results[1..]);
    }
  }

  /** Under the pipe rule a chunk goes in whole or leaves no byte behind, whatever interrupts it. */
  lemma {:induction false} WholeOrNothing(results: seq<WriteResult>, len: nat)
    requires PipeRule(results) && len <= FRAME_BYTES
    ensures var r := PushChunk(results, 0, len); r.offset == 0 || r.offset == len
  {
    LeadingOfPipe(results);
    WholeIff(results, len);
  }

  /** Without the rule the FIFO can be left in the middle of a stereo sample; a POSIX pipe does not
      return such a trace. */
  lemma PartialWriteMisaligns()
    ensures var results := [Wrote(2), EAGAIN];
      PushChunk(results, 0, FRAME_BYTES) == Pushed(2, WouldBlock) && !PipeRule(results)
  {
    var results := [Wrote(2), EAGAIN];
    assert PushChunk(results[1..], 2, FRAME_BYTES) == Pushed(2, WouldBlock);
    assert results[0] == Wrote(2);
  }

  // ---------- How a chunk ends, told by the trace ----------

  /** The sum of the counts. */
  function Sum(results: seq<WriteResult>): nat {
    if results == [] then 0
    else (if results[0].Wrote? then results[0].n else 0) + Sum(results[1..])
  }

  /** A call after which the loop goes on, if bytes are left: interrupted, or a positive count. */
  predicate Moves(result: WriteResult) {
    result.EINTR? || (result.Wrote? && result.n > 0)
  }

  /** The k-th call ends the loop with bytes left: all before it moved and summed up to less than
      len, and it does not move; past the end of the trace the pipe stays full. */
  ghost predicate EndsAt(results: seq<WriteResult>, len: nat, k: nat) {
    && k <= |results| && Sum(results[..k]) < len
    && (forall j :: 0 <= j < k ==> Moves(results[j]))
    && (k < |results| ==> !Moves(results[k]))
  }

  /** What the k-th call answers. */
  function Answer(results: seq<WriteResult>, k: nat): WriteResult {
    if k < |results| then results[k] else EAGAIN
  }

  ghost predicate EndsOn(results: seq<WriteResult>, len: nat, result: WriteResult) {
    exists k: nat :: EndsAt(results, len, k) && Answer(results, k) == result
  }

  lemma EndsAtOnce(results: seq<WriteResult>, len: nat, k: nat, n: nat)
    requires EndsAt(results, len, k) && EndsAt(results, len, n)
    ensures k == n
  {
  }

  /** Past a call that moved. */
  lemma EndsAtLater(results: seq<WriteResult>, len: nat, k: nat)
    requires results != [] && Moves(results[0])
    ensures var progress := if results[0].EINTR? then 0 else results[0].n;
      EndsAt(results, len, k) <==> k > 0 && progress < len && EndsAt(results[1..], len - progress, k - 1)
  {
    if 0 < k <= |results| {
      assert results[..k][1..] == results[1..][..k - 1];
      assert forall j :: 0 < j < k ==> results[j] == results[1..][j - 1];
      assert forall j :: 0 <= j < k - 1 ==> results[1..][j] == results[j + 1];
    }
  }

  /** Where the loop over a chunk, from offset on with left bytes to write, ends. */
  lemma {:induction false} PushEndsAt(results: seq<WriteResult>, offset: nat, left: nat) returns (k: nat)
    ensures var end := PushChunk(results, offset, offset + left).end;
      if end.Complete? then forall n: nat :: !EndsAt(results, left, n)
      else
        && EndsAt(results, left, k)
        && (end.Disconnected? ==> Answer(results, k) == EPIPE)
        && (end.Failed? ==> Answer(results, k) == OtherErrno)
        && (end.WouldBlock? ==> Answer(results, k) == EAGAIN)
        && (end.Discarded? ==> Answer(results, k) == Wrote(0))
    decreases |results|
  {
    k := 0;
    if left > 0 && results != [] && Moves(results[0]) {
      var wrote := LetsThrough(results[0], left);
      k := PushEndsAt(results[1..], offset + wrote, left - wrote);
      k := k + 1;
      hide EndsAt;
      forall n: nat
        ensures EndsAt(results, left, n) <==>
          n > 0 && wrote < left && EndsAt(results[1..], left - wrote, n - 1)
      {
        EndsAtLater(results, left, n);
      }
    }
  }

  /**
   The four ways to leave a chunk before it is complete, each told by the call that ends the loop, and
   complete chunks are those that no call ends.
   */
  lemma {:induction false} PushEndIff(results: seq<WriteResult>, len: nat)
    ensures var end := PushChunk(results, 0, len).end;
      && (end == Disconnected <==> EndsOn(results, len, EPIPE))
      && (end == Failed <==> EndsOn(results, len, OtherErrno))
      && (end == WouldBlock <==> EndsOn(results, len, EAGAIN))
      && (end == Discarded <==> EndsOn(results, len, Wrote(0)))
      && (end == Complete <==> forall k: nat :: !EndsAt(results, len, k))
  {
    var k := PushEndsAt(results, 0, len);
    hide PushChunk, EndsAt;
    forall n: nat | EndsAt(results, len, n) && EndsAt(results, len, k)
      ensures n == k
    {
      EndsAtOnce(results, len, k, n);
    }
  }

  /** The loop calls write(2) up to the call that ends it, or up to the one that completes the chunk. */
  lemma {:induction false} CallsExactly(results: seq<WriteResult>, offset: nat, left: nat)
    ensures var calls := Calls(results, offset, offset + left);
      && (forall k: nat :: EndsAt(results, left, k) ==> calls == k + 1)
      && (PushChunk(results, offset, offset + left).end.Complete? ==>
            calls <= |results| && Sum(results[..calls]) >= left
            && (calls > 0 ==> Sum(results[..calls - 1]) < left))
    decreases |results|
  {
    if left > 0 && results != [] && Moves(results[0]) {
      var wrote := LetsThrough(results[0], left);
      var calls := Calls(results, offset, offset + left);
      CallsExactly(results[1..], offset + wrote, left - wrote);
      hide EndsAt;
      forall k: nat | EndsAt(results, left, k)
        ensures calls == k + 1
      {
        EndsAtLater(results, left, k);
        assert EndsAt(results[1..], left - wrote, k - 1);
      }
      if PushChunk(results, offset, offset + left).end.Complete? {
        assert results[..calls][1..] == results[1..][..calls - 1];
        if calls > 1 {
          assert results[..calls - 1][1..] == results[1..][..calls - 2];
        }
      }
    }
  }

  // ---------- Many chunks ----------

  function Flatten(chunks: seq<seq<byte>>): seq<byte> {
    if chunks == [] then []
    else Flatten(chunks[..|chunks| - 1]) + chunks[|chunks| - 1]
  }

  predicate Fits(chunks: seq<seq<byte>>, cuts: seq<nat>) {
    |cuts| == |chunks| && forall i :: 0 <= i < |chunks| ==> cuts[i] <= |chunks[i]|
  }

  /** Each chunk cut down to what was pushed of it. */
  function FlattenCut(chunks: seq<seq<byte>>, cuts: seq<nat>): seq<byte>
    requires Fits(chunks, cuts)
  {
    if chunks == [] then []
    else
      var n := |chunks| - 1;
      FlattenCut(chunks[..n], cuts[..n]) + chunks[n][..cuts[n]]
  }

  lemma FlattenSnoc(chunks: seq<seq<byte>>, c: seq<byte>)
    ensures Flatten(chunks + [c]) == Flatten(chunks) + c
  {
    assert (chunks + [c])[..|chunks|] == chunks;
  }

  lemma CutSnoc(chunks: seq<seq<byte>>, cuts: seq<nat>, c: seq<byte>, k: nat)
    requires Fits(chunks, cuts) && k <= |c|
    ensures Fits(chunks + [c], cuts + [k])
    ensures FlattenCut(chunks + [c], cuts + [k]) == FlattenCut(chunks, cuts) + c[..k]
  {
    assert (chunks + [c])[..|chunks|] == chunks && (cuts + [k])[..|cuts|] == cuts;
  }

  // ---------- Subsequences ----------

  /** f maps each byte of out, in order, to an equal byte of stream. */
  ghost predicate Embeds(out: seq<byte>, stream: seq<byte>, f: seq<nat>) {
    && |f| == |out|
    && (forall i :: 0 <= i < |f| ==> f[i] < |stream| && stream[f[i]] == out[i])
    && (forall i, j :: 0 <= i < j < |f| ==> f[i] < f[j])
  }

  /** f keeps every byte at its place within the four-byte stereo sample. */
  ghost predicate KeepsPhase(f: seq<nat>) {
    forall i :: 0 <= i < |f| ==> f[i] % 4 == i % 4
  }

  ghost predicate IsSubsequence(out: seq<byte>, stream: seq<byte>) {
    exists f :: Embeds(out, stream, f)
  }

  ghost predicate IsAlignedSubsequence(out: seq<byte>, stream: seq<byte>) {
    exists f :: Embeds(out, stream, f) && KeepsPhase(f)
  }

  /** Adding a chunk to the stream and a prefix of it to the output. */
  lemma EmbedChunk(out: seq<byte>, stream: seq<byte>, f: seq<nat>, c: seq<byte>, k: nat)
    returns (f': seq<nat>)
    requires Embeds(out, stream, f) && k <= |c|
    ensures Embeds(out + c[..k], stream + c, f')
    ensures KeepsPhase(f) && |out| % 4 == 0 && |stream| % 4 == 0 ==> KeepsPhase(f')
  {
    f' := f + seq(k, j requires 0 <= j < k => |stream| + j);
    forall i | 0 <= i < |f'|
      ensures f'[i] < |stream + c| && (stream + c)[f'[i]] == (out + c[..k])[i]
      ensures KeepsPhase(f) && |out| % 4 == 0 && |stream| % 4 == 0 ==> f'[i] % 4 == i % 4
    {
      if i >= |f| {
        SamePhase(|stream|, |out|, i - |f|);
      }
    }
  }

  lemma SamePhase(a: nat, b: nat, j: nat)
    ensures a % 4 == 0 && b % 4 == 0 ==> (a + j) % 4 == (b + j) % 4
  {
  }

  /**
   Whatever write(2) returns, the FIFO receives a subsequence of the stream the callback handed
   out: one prefix of each chunk, in order.
   */
  lemma {:induction false} OutputIsSubsequence(chunks: seq<seq<byte>>, cuts: seq<nat>)
    requires Fits(chunks, cuts)
    ensures IsSubsequence(FlattenCut(chunks, cuts), Flatten(chunks))
  {
    if chunks == [] {
      assert Embeds(FlattenCut(chunks, cuts), Flatten(chunks), []);
    } else {
      var n := |chunks| - 1;
      OutputIsSubsequence(chunks[..n], cuts[..n]);
      var f :| Embeds(FlattenCut(chunks[..n], cuts[..n]), Flatten(chunks[..n]), f);
      var f' := EmbedChunk(FlattenCut(chunks[..n], cuts[..n]), Flatten(chunks[..n]), f,
                           chunks[n], cuts[n]);
    }
  }

  /** Every chunk consists of whole stereo samples and went in whole or not at all. */
  ghost predicate WholeChunks(chunks: seq<seq<byte>>, cuts: seq<nat>) {
    && Fits(chunks, cuts)
    && forall i :: 0 <= i < |chunks| ==>
         |chunks[i]| % 4 == 0 && (cuts[i] == 0 || cuts[i] == |chunks[i]|)
  }

  lemma {:induction false} AlignedLengths(chunks: seq<seq<byte>>, cuts: seq<nat>)
    requires WholeChunks(chunks, cuts)
    ensures |Flatten(chunks)| % 4 == 0 && |FlattenCut(chunks, cuts)| % 4 == 0
  {
    if chunks != [] {
      var n := |chunks| - 1;
      AlignedLengths(chunks[..n], cuts[..n]);
      AlignedConcat(Flatten(chunks[..n]), chunks[n]);
      AlignedConcat(FlattenCut(chunks[..n], cuts[..n]), chunks[n][..cuts[n]]);
    }
  }

  /** Then the left/right, low/high phase of every byte survives all the way into the FIFO. */
  lemma {:induction false} OutputKeepsPhase(chunks: seq<seq<byte>>, cuts: seq<nat>)
    requires WholeChunks(chunks, cuts)
    ensures IsAlignedSubsequence(FlattenCut(chunks, cuts), Flatten(chunks))
  {
    if chunks == [] {
      assert Embeds(FlattenCut(chunks, cuts), Flatten(chunks), []) && KeepsPhase([]);
    } else {
      var n := |chunks| - 1;
      OutputKeepsPhase(chunks[..n], cuts[..n]);
      AlignedLengths(chunks[..n], cuts[..n]);
      var f :| Embeds(FlattenCut(chunks[..n], cuts[..n]), Flatten(chunks[..n]), f) && KeepsPhase(f);
      var f' := EmbedChunk(FlattenCut(chunks[..n], cuts[..n]), Flatten(chunks[..n]), f,
                           chunks[n], cuts[n]);
    }
  }
}
