/** The rolling ECG buffer both App components keep: append the new sample,
    then drop one head sample if the buffer is longer than its capacity. */
module Waveform {

  /** The last n elements of s (all of s when it is shorter). */
  function LastN<T>(s: seq<T>, n: nat): (r: seq<T>)
    ensures |r| == if |s| <= n then |s| else n
    ensures r == s[|s| - |r|..]
  {
    if |s| <= n then s else s[|s| - n..]
  }

  /** One update: `next = [...prev, sample]; if (next.length > capacity)
      next.shift()`. The result is the tail of prev + [sample] that is one
      longer than prev while prev is below capacity, and as long as prev
      otherwise (exactly one sample is shifted out, never more). */
  function Pushed<T>(prev: seq<T>, sample: T, capacity: nat): (next: seq<T>)
    requires capacity > 0
    ensures |next| == if |prev| < capacity then |prev| + 1 else |prev|
    ensures next == (prev + [sample])[|prev| + 1 - |next|..]
    ensures next[|next| - 1] == sample
    ensures |prev| <= capacity ==> |next| <= capacity
    ensures |prev| < capacity ==> next[..|prev|] == prev
    ensures |prev| == capacity ==> next == prev[1..] + [sample]
  {
    var appended := prev + [sample];
    if |appended| > capacity then appended[1..] else appended
  }

  /** The buffer after a run of updates, oldest sample first. */
  function PushedAll<T>(buf: seq<T>, samples: seq<T>, capacity: nat): seq<T>
    requires capacity > 0
    decreases |samples|
  {
    if samples == [] then buf
    else PushedAll(Pushed(buf, samples[0], capacity), samples[1..], capacity)
  }

  /** A suffix of a suffix is a suffix. */
  lemma SuffixOfSuffix<T>(s: seq<T>, a: nat, b: nat)
    requires a + b <= |s|
    ensures s[a..][b..] == s[a + b..]
  {
  }

  /** Cutting the history to its last n before appending more changes
      nothing in the last n afterwards. */
  lemma LastNAppend<T>(s: seq<T>, t: seq<T>, n: nat)
    ensures LastN(LastN(s, n) + t, n) == LastN(s + t, n)
  {
    if |s| > n {
      var history := s + t;
      var kept := s[|s| - n..] + t;
      assert kept == history[|s| - n..] by {
        assert |kept| == |history| - (|s| - n);
        forall i | 0 <= i < |kept|
          ensures kept[i] == history[|s| - n + i]
        {
        }
      }
      assert LastN(kept, n) == kept[|t|..];
      SuffixOfSuffix(history, |s| - n, |t|);
    }
  }

  /** From within capacity, one update keeps the newest `capacity` samples. */
  lemma PushedIsLastN<T>(prev: seq<T>, sample: T, capacity: nat)
    requires capacity > 0 && |prev| <= capacity
    ensures Pushed(prev, sample, capacity) == LastN(prev + [sample], capacity)
  {
    var history := prev + [sample];
    if |prev| == capacity {
      assert history[1..] == prev[1..] + [sample];
    }
  }

  /** Bounded FIFO: from a buffer within capacity, any run of updates leaves
      exactly the newest `capacity` samples of the whole history, in order. */
  lemma {:induction false} PushedAllKeepsNewest<T>(buf: seq<T>, samples: seq<T>, capacity: nat)
    requires capacity > 0 && |buf| <= capacity
    ensures PushedAll(buf, samples, capacity) == LastN(buf + samples, capacity)
    decreases |samples|
  {
    if samples == [] {
      assert buf + samples == buf;
    } else {
      var first := buf + [samples[0]];
      var next := Pushed(buf, samples[0], capacity);
      calc {
        PushedAll(buf, samples, capacity);
        PushedAll(next, samples[1..], capacity);
        { PushedAllKeepsNewest(next, samples[1..], capacity); }
        LastN(next + samples[1..], capacity);
        { PushedIsLastN(buf, samples[0], capacity); }
        LastN(LastN(first, capacity) + samples[1..], capacity);
        { LastNAppend(first, samples[1..], capacity); }
        LastN(first + samples[1..], capacity);
        { assert first + samples[1..] == buf + samples; }
        LastN(buf + samples, capacity);
      }
    }
  }

  /** Worked example: capacity + 1 samples into an empty buffer
      leave all but the first. */
  lemma OneOverCapacity<T>(samples: seq<T>, capacity: nat)
    requires capacity > 0 && |samples| == capacity + 1
    ensures PushedAll([], samples, capacity) == samples[1..]
  {
    PushedAllKeepsNewest([], samples, capacity);
    assert [] + samples == samples;
  }
}
