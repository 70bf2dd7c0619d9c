/** The per-stream timestamp classifier: one forward pass over a stream of
    unsigned timestamps, tracking availability and monotonicity. */
module Timestamps {
  import opened Basics

  /** The verdict for one timestamp stream. */
  datatype Status = NotAvailable | NotMonotonic | Good

  /** The loop variables kept for one stream: the previous timestamp, whether
      any timestamp was positive, and whether none fell below its predecessor. */
  datatype Tracker = Tracker(last: u64, available: bool, monotonic: bool)

  /** Values before the first frame; the first timestamp is compared against 0,
      so it can never break monotonicity. */
  const Start := Tracker(0, false, true)

  /** One iteration of the frame loop for one stream: only a strict decrease
      clears `monotonic`. */
  function Observe(tr: Tracker, t: u64): Tracker
  {
    Tracker(t, tr.available || t > 0, tr.monotonic && !(t < tr.last))
  }

  /** Final classification of a tracker. */
  function Verdict(tr: Tracker): Status
  {
    if tr.available then (if tr.monotonic then Good else NotMonotonic) else NotAvailable
  }

  predicate AllZero(ts: seq<u64>)
  {
    forall i :: 0 <= i < |ts| ==> ts[i] == 0
  }

  predicate SomePositive(ts: seq<u64>)
  {
    exists i :: 0 <= i < |ts| && ts[i] > 0
  }

  /** Every timestamp is at least its predecessor (equal neighbours allowed). */
  predicate NonDecreasing(ts: seq<u64>)
  {
    forall i :: 0 < i < |ts| ==> ts[i - 1] <= ts[i]
  }

  /** The state after feeding the whole stream, in order, to the tracker. */
  function Track(ts: seq<u64>): (tr: Tracker)
    ensures tr.last == if ts == [] then 0 else ts[|ts| - 1]
    ensures tr.available <==> SomePositive(ts)
    ensures tr.monotonic <==> NonDecreasing(ts)
  {
    if ts == [] then Start
    else
      var prefix := ts[..|ts| - 1];
      assert forall i :: 0 <= i < |prefix| ==> prefix[i] == ts[i];
      Observe(Track(prefix), ts[|ts| - 1])
  }

  /** The status reported for one stream, characterised without the tracker. */
  function StreamStatus(ts: seq<u64>): (s: Status)
    ensures s == NotAvailable <==> AllZero(ts)
    ensures s == Good <==> SomePositive(ts) && NonDecreasing(ts)
    ensures s == NotMonotonic <==> SomePositive(ts) && !NonDecreasing(ts)
  {
    Verdict(Track(ts))
  }

  /** Repeating the last timestamp never changes a stream's status. */
  lemma RepeatKeepsStatus(ts: seq<u64>)
    requires ts != []
    ensures StreamStatus(ts + [ts[|ts| - 1]]) == StreamStatus(ts)
  {
    var ext := ts + [ts[|ts| - 1]];
    assert ext[..|ts|] == ts;
    assert Track(ext) == Observe(Track(ts), ts[|ts| - 1]);
  }

  /** Once a stream has shown a decrease it stays NotMonotonic, whatever follows. */
  lemma NotMonotonicIsFinal(ts: seq<u64>, more: seq<u64>)
    requires StreamStatus(ts) == NotMonotonic
    ensures StreamStatus(ts + more) == NotMonotonic
  {
    var all := ts + more;
    var p :| 0 <= p < |ts| && ts[p] > 0;
    assert all[p] == ts[p];
    var i :| 0 < i < |ts| && !(ts[i - 1] <= ts[i]);
    assert all[i - 1] == ts[i - 1] && all[i] == ts[i];
  }
}
