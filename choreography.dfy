/**
 * The delays that tie the armed word, the pop cue and the post-blast messages
 * together. Timers themselves are not modelled: these are the delay values the
 * script hands to `setTimeout` and `setInterval`, in milliseconds.
 */
module Choreography {
  import opened Optional
  import opened Settings

  function MaxInt(a: int, b: int): int { if a >= b then a else b }

  /**
   * `preDelay = max(0, dur - max(0, lead))`: when the pop cue plays after the
   * click, `lead` ms before the blast that comes `dur` ms after the click.
   */
  function PreDelay(dur: int, lead: int): (r: int)
    ensures r >= 0
    ensures dur >= 0 ==> r <= dur
    ensures 0 <= lead <= dur ==> r == dur - lead
    ensures lead <= 0 ==> r == MaxInt(0, dur)
    ensures lead >= dur ==> r == 0
  {
    MaxInt(0, dur - MaxInt(0, lead))
  }

  /** A longer lead never makes the pop cue later. */
  lemma PreDelayAntitone(dur: int, lead1: int, lead2: int)
    requires lead1 <= lead2
    ensures PreDelay(dur, lead1) >= PreDelay(dur, lead2)
  {
  }

  /** The blink period of the armed word, `max(150, dur || 400)`. */
  function BlinkPeriod(dur: int): (p: int)
    ensures p >= 150
    ensures dur == 0 ==> p == 400
    ensures dur >= 150 ==> p == dur
    ensures dur != 0 && dur < 150 ==> p == 150
  {
    MaxInt(150, if dur == 0 then 400 else dur)
  }

  /** The lines shown after the blast: the configured ones, or three fallbacks when none are set. */
  function Lines(configured: seq<string>): (r: seq<string>)
    ensures |r| > 0
    ensures |configured| > 0 ==> r == configured
  {
    if |configured| > 0 then configured
    else ["Happy Birthday!", "Wishing you joy and love", "Have an amazing day!"]
  }

  /** The reveal offset of each of `n` lines, relative to the first: `i * staggerMs`. */
  function RevealOffsets(n: nat, stagger: int): (r: seq<int>)
    ensures |r| == n
    ensures n > 0 ==> r[0] == 0
    ensures forall i :: 0 < i < n ==> r[i] == r[i - 1] + stagger
  {
    seq(n, i => i * stagger)
  }

  /**
   * The reveal offsets of the closing messages as configured: one per line of
   * `Lines`, `staggerMs` apart, with `postMessageStaggerMs ?? 600` as the stagger.
   */
  function MessageOffsets(c: Config): (r: seq<int>)
    ensures |r| == |Lines(c.postMessages)| && |r| > 0
    ensures c.postMessageStaggerMs.None? ==> forall i :: 0 <= i < |r| ==> r[i] == i * 600
    ensures forall i :: 0 <= i < |r| ==> r[i] == i * c.postMessageStaggerMs.GetOr(600)
  {
    var s := c.postMessageStaggerMs.GetOr(600);
    var r := RevealOffsets(|Lines(c.postMessages)|, s);
    forall i | 0 <= i < |r|
      ensures r[i] == i * s
    {
      RevealInOrder(|r|, s, 0, i);
    }
    r
  }

  /**
   * With a non-negative stagger, no line is revealed before an earlier one,
   * and line `i` comes at least `(j - i) * stagger` ms before line `j`.
   */
  lemma {:induction false} RevealInOrder(n: nat, stagger: int, i: nat, j: nat)
    requires i <= j < n
    ensures RevealOffsets(n, stagger)[j] == RevealOffsets(n, stagger)[i] + (j - i) * stagger
    ensures stagger >= 0 ==> RevealOffsets(n, stagger)[i] <= RevealOffsets(n, stagger)[j]
    decreases j - i
  {
    var r := RevealOffsets(n, stagger);
    if i < j {
      RevealInOrder(n, stagger, i, j - 1);
      assert r[j] == r[j - 1] + stagger;
      assert (j - i) * stagger == (j - 1 - i) * stagger + stagger;
    }
    if stagger >= 0 {
      assert (j - i) * stagger >= 0;
    }
  }

  /** Each line's reveal time after the blast, `messageDelay + i * staggerMs`, never precedes the first. */
  lemma RevealAfterDelay(n: nat, stagger: int, messageDelay: int, i: nat)
    requires i < n && stagger >= 0
    ensures messageDelay + RevealOffsets(n, stagger)[i] >= messageDelay
  {
    RevealInOrder(n, stagger, 0, i);
  }
}
