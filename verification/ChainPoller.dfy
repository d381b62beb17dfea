/**
 The chain poller as an object: the operations behind the poller steps of the engine.
 */
module ChainPoller {
  import opened Progress
  import opened Engine
  import opened PollerInvariant

  const MAX_FAILED_CYCLES := 20

  datatype StartResult = Launched | AlreadyStarted | HeightZero | BeyondTip | StillAsking

  /** A query for one number that may fail. */
  datatype Reply = Failure | Answer(height: nat)

  class ChainPoller {
    var isStarted: bool
    var nextHeight: nat
    var blockInfoChan: seq<nat>
    var failedCycles: nat

    constructor ()
      ensures !isStarted && blockInfoChan == [] && failedCycles == 0
    {
      isStarted, nextHeight, blockInfoChan, failedCycles := false, 0, [], 0;
    }

    /** The poller part of the engine's state at the given control point. */
    ghost function At(pc: PollerPc): Poller
      reads this
    {
      Poller(pc, nextHeight, blockInfoChan)
    }

    /** Start with validateStartHeight: the tip is asked for until an answer comes. */
    method Start(startHeight: nat, tipReplies: seq<Reply>) returns (r: StartResult)
      modifies this
      ensures isStarted
      ensures old(isStarted) <==> r.AlreadyStarted?
      ensures r.HeightZero? <==> !old(isStarted) && startHeight == 0
      ensures r.StillAsking? <==>
                !old(isStarted) && startHeight > 0 && forall i :: 0 <= i < |tipReplies| ==> tipReplies[i].Failure?
      ensures r.Launched? ==> At(Activating) == Poller(Activating, startHeight, old(blockInfoChan))
      ensures !r.Launched? ==> nextHeight == old(nextHeight)
      ensures blockInfoChan == old(blockInfoChan)
      ensures r.Launched? || r.BeyondTip? ==>
                exists i :: 0 <= i < |tipReplies| && tipReplies[i].Answer?
                            && (forall j :: 0 <= j < i ==> tipReplies[j].Failure?)
                            && (r.Launched? <==> 1 <= startHeight <= tipReplies[i].height + 1)
    {
      if isStarted {
        return AlreadyStarted;
      }
      isStarted := true;
      if startHeight == 0 {
        return HeightZero;
      }
      var i := 0;
      while i < |tipReplies| && tipReplies[i].Failure?
        invariant 0 <= i <= |tipReplies|
        invariant forall j :: 0 <= j < i ==> tipReplies[j].Failure?
      {
        i := i + 1;
      }
      if i == |tipReplies| {
        return StillAsking;
      }
      if startHeight > tipReplies[i].height + 1 {
        return BeyondTip;
      }
      nextHeight := startHeight;
      return Launched;
    }

    /** waitForActivation: the first answer decides; only failures came before it. */
    method WaitForActivation(replies: seq<Reply>) returns (known: bool)
      modifies this`nextHeight
      ensures known <==> exists i :: 0 <= i < |replies| && replies[i].Answer?
      ensures !known ==> nextHeight == old(nextHeight)
      ensures known ==> exists i :: 0 <= i < |replies| && replies[i].Answer?
                                  && (forall j :: 0 <= j < i ==> replies[j].Failure?)
                                    && nextHeight == Max(old(nextHeight), replies[i].height)
    {
      for i := 0 to |replies|
        invariant forall j :: 0 <= j < i ==> replies[j].Failure?
        invariant nextHeight == old(nextHeight)
      {
        if replies[i].Answer? {
          if nextHeight < replies[i].height {
            nextHeight := replies[i].height;
          }
          return true;
        }
      }
      return false;
    }

    /** Querying the block at nextHeight: on success the block is in hand and nextHeight moves on;
        too many failures in a row end the program. */
    method Retrieve(found: bool) returns (hand: PollerPc, fatal: bool)
      modifies this`nextHeight, this`failedCycles
      ensures found ==> At(hand) == old(Poller(Pushing(nextHeight), nextHeight + 1, blockInfoChan)) && failedCycles == 0
      ensures !found ==> At(hand) == old(At(Waiting)) && failedCycles == old(failedCycles) + 1
      ensures fatal <==> failedCycles > 20
    {
      if found {
        hand := Pushing(nextHeight);
        nextHeight := nextHeight + 1;
        failedCycles := 0;
      } else {
        hand := Waiting;
        failedCycles := failedCycles + 1;
      }
      fatal := failedCycles > MAX_FAILED_CYCLES;
    }

    /** clearChanBufferUpToHeight */
    method ClearChanBufferUpToHeight(upToHeight: nat)
      modifies this`blockInfoChan
      ensures blockInfoChan == Drain(old(blockInfoChan), upToHeight)
    {
      while |blockInfoChan| > 0
        invariant Drain(blockInfoChan, upToHeight) == Drain(old(blockInfoChan), upToHeight)
        decreases |blockInfoChan|
      {
        var block := blockInfoChan[0];
        blockInfoChan := blockInfoChan[1..];
        if block + 1 >= upToHeight {
          return;
        }
      }
    }

    /** The answer to a skip request. On a buffer of contiguous heights ending at nextHeight - 1, as
        it is in every reachable state, an accepted skip leaves nothing in the channel. */
    method AnswerSkipRequest(target: nat) returns (accepted: bool)
      modifies this`blockInfoChan, this`nextHeight
      ensures At(Polling) == AnswerSkip(old(At(Answering(target))), target)
      ensures accepted <==> old(nextHeight) < target
      ensures accepted && (forall h :: h in old(blockInfoChan) ==> h < old(nextHeight)) ==> blockInfoChan == []
      ensures old(nextHeight) <= nextHeight
    {
      if target <= nextHeight {
        return false;
      }
      if forall h :: h in blockInfoChan ==> h < nextHeight {
        DrainEmpties(blockInfoChan, target);
      }
      ClearChanBufferUpToHeight(target);
      nextHeight := target;
      return true;
    }
  }
}
