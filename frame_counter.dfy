// The every-other-call tick gate shared by tick_mario_frame
// (game/kernel/jak1/Mario1.cpp) and the dispatch loop of
// KernelCheckAndDispatch (game/kernel/jak1/kboot.cpp): the avatar is stepped
// when the frame counter is even and an avatar exists; a step resets the
// counter to 0, and every call then increments it.

module FrameCounter {
  /** The id that stands for "no avatar". */
  const NoAvatar: int := -1

  predicate WillTick(frameNum: nat, marioId: int)
  {
    frameNum % 2 == 0 && marioId != NoAvatar
  }

  /** The counter after one call. */
  function NextFrameNum(frameNum: nat, marioId: int): (next: nat)
    ensures next >= 1
    ensures next % 2 == (frameNum + 1) % 2
  {
    (if WillTick(frameNum, marioId) then 0 else frameNum) + 1
  }

  /** Which of `n` consecutive calls, starting from counter `frameNum`, step the avatar. */
  function TickPattern(frameNum: nat, marioId: int, n: nat): (p: seq<bool>)
    ensures |p| == n
    decreases n
  {
    if n == 0 then []
    else [WillTick(frameNum, marioId)] + TickPattern(NextFrameNum(frameNum, marioId), marioId, n - 1)
  }

  /** With an avatar, call i steps it exactly when frameNum + i is even; so
      steps alternate with idle calls. Without one, no call steps it. */
  lemma {:induction false} TicksAlternate(frameNum: nat, marioId: int, n: nat, i: nat)
    requires i < n
    ensures TickPattern(frameNum, marioId, n)[i] <==> marioId != NoAvatar && (frameNum + i) % 2 == 0
    decreases i
  {
    if i > 0 {
      var next := NextFrameNum(frameNum, marioId);
      TicksAlternate(next, marioId, n - 1, i - 1);
      assert TickPattern(frameNum, marioId, n)[i] == TickPattern(next, marioId, n - 1)[i - 1];
    }
  }

  /** Two consecutive calls never both step the avatar. */
  lemma NoTwoTicksInARow(frameNum: nat, marioId: int, n: nat, i: nat)
    requires i + 1 < n
    ensures !(TickPattern(frameNum, marioId, n)[i] && TickPattern(frameNum, marioId, n)[i + 1])
  {
    TicksAlternate(frameNum, marioId, n, i);
    TicksAlternate(frameNum, marioId, n, i + 1);
  }

  /** How many cubes a series of button samples spawns: one for each sample
      that is pressed while the previous sample was not. */
  function RisingEdges(prev: bool, presses: seq<bool>): nat
    decreases presses
  {
    if presses == [] then 0
    else (if presses[0] && !prev then 1 else 0) + RisingEdges(presses[0], presses[1..])
  }

  /** Holding the button spawns one cube at most, however long it is held. */
  lemma {:induction false} HeldButtonSpawnsOnce(prev: bool, presses: seq<bool>)
    requires forall i :: 0 <= i < |presses| ==> presses[i]
    ensures RisingEdges(prev, presses) == (if !prev && |presses| > 0 then 1 else 0)
    decreases presses
  {
    if presses != [] {
      HeldButtonSpawnsOnce(presses[0], presses[1..]);
    }
  }

  /** Every spawn needs a release before it, so at most about half the samples spawn. */
  lemma {:induction false} RisingEdgesBound(prev: bool, presses: seq<bool>)
    ensures RisingEdges(prev, presses) <= (|presses| + (if prev then 0 else 1)) / 2
    decreases presses
  {
    if presses != [] {
      RisingEdgesBound(presses[0], presses[1..]);
    }
  }
}
