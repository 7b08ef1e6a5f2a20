/**
 * Splitting the inspection report into messages that fit the chat
 * platform's size limit (namechecker.py:343-349).
 */
module Chunking {

  /** The slice length used for long reports. */
  const MESSAGE_LIMIT: nat := 1990

  function Min(a: int, b: int): int {
    if a <= b then a else b
  }

  /** How many slices `range(0, |s|, MESSAGE_LIMIT)` yields. */
  function ChunkCount(s: string): nat {
    (|s| + MESSAGE_LIMIT - 1) / MESSAGE_LIMIT
  }

  /** `[s[i:i + 1990] for i in range(0, len(s), 1990)]`. */
  function Chunks(s: string): seq<string> {
    seq(ChunkCount(s), k requires 0 <= k < ChunkCount(s) =>
      s[k * MESSAGE_LIMIT .. Min((k + 1) * MESSAGE_LIMIT, |s|)])
  }

  /** The messages sent for a report: slices when it is over the limit, else the report itself. */
  function MessageParts(report: string): seq<string> {
    if |report| > MESSAGE_LIMIT then Chunks(report) else [report]
  }

  /** The messages joined back together. */
  function Concat(parts: seq<string>): string {
    if parts == [] then [] else Concat(parts[..|parts| - 1]) + parts[|parts| - 1]
  }

  /** Every slice is non-empty and within the limit; all but the last are exactly at the limit. */
  lemma ChunkSizes(s: string)
    ensures forall k :: 0 <= k < |Chunks(s)| ==> 0 < |Chunks(s)[k]| <= MESSAGE_LIMIT
    ensures forall k :: 0 <= k < |Chunks(s)| - 1 ==> |Chunks(s)[k]| == MESSAGE_LIMIT
  {
  }

  /** The first `m` slices joined are the first `m` slice-lengths of the report. */
  lemma {:induction false} ConcatChunksPrefix(s: string, m: nat)
    requires m <= ChunkCount(s)
    ensures Concat(Chunks(s)[..m]) == s[..Min(m * MESSAGE_LIMIT, |s|)]
  {
    if m > 0 {
      ConcatChunksPrefix(s, m - 1);
      var parts := Chunks(s);
      assert parts[..m][..m - 1] == parts[..m - 1];
      assert Concat(parts[..m]) == Concat(parts[..m - 1]) + parts[m - 1];
    }
  }

  /** Joining the slices gives back the report: nothing is lost, duplicated or reordered. */
  lemma ChunksRoundTrip(s: string)
    ensures Concat(Chunks(s)) == s
  {
    ConcatChunksPrefix(s, ChunkCount(s));
    assert Chunks(s)[..ChunkCount(s)] == Chunks(s);
  }

  /**
   * What is sent: one message per at most `MESSAGE_LIMIT` characters, none
   * longer than the limit except a report that is itself short enough, and
   * the messages together spell the report.
   */
  lemma MessagePartsSpec(report: string)
    ensures Concat(MessageParts(report)) == report
    ensures forall k :: 0 <= k < |MessageParts(report)| ==> |MessageParts(report)[k]| <= MESSAGE_LIMIT
    ensures |report| <= MESSAGE_LIMIT ==> MessageParts(report) == [report]
    ensures |report| > MESSAGE_LIMIT ==> |MessageParts(report)| >= 2
  {
    if |report| > MESSAGE_LIMIT {
      ChunksRoundTrip(report);
      ChunkSizes(report);
    } else {
      assert Concat([report]) == Concat([]) + report;
    }
  }
}
