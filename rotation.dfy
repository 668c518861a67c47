/** The alert rotation step both AlertMessage components use,
    `(prev + 1) % alertMessages.length`, and what a component shows. */
module Rotation {

  /** What an AlertMessage component shows: the "No health issues" badge,
      one alert, or nothing, when the cursor points past the end of the list
      (`alertMessages[i]` is `undefined`). */
  datatype Shown = NoHealthIssues | Alert(text: string) | Blank

  /** The advance of the cursor. It lands inside [0, n) even from an index
      that is already out of range. */
  function Next(i: nat, n: nat): (j: nat)
    requires n > 0
    ensures j < n
    ensures i + 1 < n ==> j == i + 1
    ensures i + 1 == n ==> j == 0
  {
    (i + 1) % n
  }

  /** The cursor after k advances. */
  function Steps(i: nat, n: nat, k: nat): nat
    requires n > 0
  {
    if k == 0 then i else Next(Steps(i, n, k - 1), n)
  }

  /** Within one round the cursor walks forward and wraps once. */
  lemma {:induction false} StepsWithinRound(i: nat, n: nat, k: nat)
    requires i < n && k <= n
    ensures Steps(i, n, k) == if i + k < n then i + k else i + k - n
  {
    if k > 0 {
      StepsWithinRound(i, n, k - 1);
    }
  }

  /** How many advances lead from i to j within one round of n. */
  function Distance(i: nat, j: nat, n: nat): nat
    requires i < n && j < n
  {
    if i <= j then j - i else j + n - i
  }

  /** The rotation is cyclic: n advances from an index in range return to
      it. */
  lemma FullRound(i: nat, n: nat)
    requires i < n
    ensures Steps(i, n, n) == i
  {
    StepsWithinRound(i, n, n);
  }

  /** Every alert is shown within one round, from any starting index. */
  lemma EveryIndexReached(i: nat, n: nat)
    requires i < n
    ensures forall j :: 0 <= j < n ==> Distance(i, j, n) < n && Steps(i, n, Distance(i, j, n)) == j
  {
    forall j | 0 <= j < n
      ensures Distance(i, j, n) < n && Steps(i, n, Distance(i, j, n)) == j
    {
      StepsWithinRound(i, n, Distance(i, j, n));
    }
  }

  /** With a single alert the cursor never leaves 0. */
  lemma {:induction false} SingleAlertStays(k: nat)
    ensures Steps(0, 1, k) == 0
    decreases k
  {
    if k > 0 {
      SingleAlertStays(k - 1);
    }
  }
}
