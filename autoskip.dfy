/**
 * The `ProcessAutoskip` object together with its static fields: the decoder callbacks
 * `Lock` and `Display`, one turn of the `CompareFrames` loop, the player's Stopped
 * report, `StartGrab`, and the loop itself run while frames are waiting. Each method is
 * proved to change the fields exactly as the matching step of `AutoskipSpec` does.
 */
module Autoskip {
  import opened Wrappers
  import Stride
  import S = AutoskipSpec

  class ProcessAutoskip {
    var currentMappedFile: Option<S.BufferId>
    var frameCounter: int
    var filesToProcess: seq<S.BufferId>
    var frameNumber: int
    var sizes: map<S.BufferId, nat>
    var released: set<S.BufferId>
    var cancelled: bool
    var stopRequests: nat
    var hasPlayer: bool
    var matchLog: seq<int>
    var introScreenshot: Bytes
    var nextId: S.BufferId
    ghost var abandoned: set<S.BufferId>
    ghost var enqueued: seq<S.BufferId>
    ghost var processed: seq<S.BufferId>

    /** `exactComparer`, applied to a buffer's picture and the reference image. */
    const exactComparer: S.Comparator

    ghost function State(): S.State
      reads this
    {
      S.State(currentMappedFile, frameCounter, filesToProcess, frameNumber, sizes, released,
              cancelled, stopRequests, hasPlayer, matchLog, introScreenshot, nextId, abandoned,
              enqueued, processed)
    }

    ghost predicate Valid()
      reads this
    {
      S.Inv(State())
    }

    constructor (exactComparer: S.Comparator)
      ensures Valid() && State() == S.Initial()
      ensures this.exactComparer == exactComparer
    {
      currentMappedFile, frameCounter, filesToProcess, frameNumber := None, 0, [], 0;
      sizes, released, cancelled, stopRequests, matchLog := map[], {}, true, 0, [];
      introScreenshot, nextId, hasPlayer := [], 0, false;
      abandoned, enqueued, processed := {}, [], [];
      this.exactComparer := exactComparer;
      S.InitialInv();
    }

    /** The decoder asks for a buffer to write the next picture into. */
    method Lock() returns (buffer: S.BufferId)
      requires Valid()
      modifies this
      ensures State() == S.Lock(old(State()))
      ensures Valid()
      ensures buffer == old(nextId) && buffer !in old(sizes)
      ensures currentMappedFile == Some(buffer) && sizes[buffer] == Stride.BufferSize as nat
    {
      ghost var before := State();
      ghost var after := S.Lock(before);
      S.LockInv(before);
      buffer := nextId;
      if currentMappedFile.Some? {
        abandoned := abandoned + {currentMappedFile.value};
      }
      sizes := sizes[buffer := Stride.BufferSize as nat];
      currentMappedFile := Some(buffer);
      nextId := nextId + 1;
      assert abandoned == after.abandoned && sizes == after.sizes;
      assert currentMappedFile == after.current && nextId == after.nextId;
    }

    /** The decoder has a picture to show: the alternate-frame decimator. */
    method Display()
      requires Valid() && currentMappedFile.Some?
      modifies this
      ensures State() == S.Display(old(State()))
      ensures Valid()
      ensures S.Even(old(frameCounter)) ==>
        filesToProcess == old(filesToProcess) + [old(currentMappedFile).value] && released == old(released)
      ensures !S.Even(old(frameCounter)) ==>
        filesToProcess == old(filesToProcess) && released == old(released) + {old(currentMappedFile).value}
      ensures currentMappedFile.None? && frameCounter == S.Inc64(old(frameCounter))
    {
      ghost var before := State();
      ghost var after := S.Display(before);
      S.DisplayInv(before);
      var file := currentMappedFile.value;
      if frameCounter % 2 == 0 {
        filesToProcess := filesToProcess + [file];
        enqueued := enqueued + [file];
        currentMappedFile := None;
      } else {
        released := released + {file};
        currentMappedFile := None;
      }
      frameCounter := if frameCounter == S.Int64Max then S.Int64Min else frameCounter + 1;
      assert filesToProcess == after.queue && enqueued == after.enqueued;
      assert released == after.released && currentMappedFile == after.current;
      assert frameCounter == after.frameCounter;
    }

    /**
     * One turn of the analysis loop. `dequeued` is the buffer taken from the queue, if
     * any; `matched` says whether `MatchFound` was raised for it.
     */
    method CompareStep() returns (dequeued: Option<S.BufferId>, matched: bool)
      requires Valid()
      modifies this
      ensures State() == S.CompareStep(old(State()), exactComparer)
      ensures Valid()
      ensures dequeued.Some? <==> !old(cancelled) && |old(filesToProcess)| > 0
      ensures dequeued.Some? ==> dequeued.value == old(filesToProcess)[0]
      ensures matched <==>
        dequeued.Some? && exactComparer(dequeued.value, old(introScreenshot)) < S.MatchThreshold
    {
      ghost var before := State();
      ghost var after := S.CompareStep(before, exactComparer);
      dequeued, matched := None, false;
      if !cancelled && |filesToProcess| > 0 {
        S.CompareStepMatchIff(before, exactComparer);
        var file := filesToProcess[0];
        dequeued := Some(file);
        var difference := exactComparer(file, introScreenshot);
        matched := difference < S.MatchThreshold;
        if matched {
          // MatchFound, the first disposal and the player's Stop
          matchLog, released, stopRequests := matchLog + [frameNumber], released + {file}, stopRequests + 1;
        }
        filesToProcess, processed, released := filesToProcess[1..], processed + [file], released + {file};
        frameNumber := S.Inc32(frameNumber);
        assert released == after.released by {
          assert before.released + {file} + {file} == before.released + {file};
        }
        assert matchLog == after.matches && stopRequests == after.stopRequests;
        assert State() == after;
      } else {
        S.IdleCompareStep(before, exactComparer);
      }
      S.CompareStepInv(before, exactComparer);
    }

    /** The analysis player reports Stopped, which cancels the loop's token. */
    method PlayerStopped()
      requires Valid()
      modifies this
      ensures Valid() && State() == S.Stopped(old(State()))
    {
      ghost var before := State();
      cancelled := true;
      S.StoppedInv(before);
    }

    /** The caller hands over the reference image by assigning the public field. */
    method SetIntroScreenshot(image: Bytes)
      requires Valid()
      modifies this
      ensures State() == S.SetReference(old(State()), image)
      ensures Valid()
    {
      ghost var before := State();
      S.SetReferenceInv(before, image);
      introScreenshot := image;
    }

    /**
     * `StartGrab`: the player is created on the first grab and stopped on a later one;
     * then a new token and a new analysis loop against `introScreenshot`. The media
     * itself only reaches the player, which is not part of this model.
     */
    method StartGrab(media: string)
      requires Valid()
      modifies this
      ensures Valid() && State() == S.StartGrab(old(State()), old(introScreenshot))
    {
      ghost var before := State();
      if hasPlayer {
        stopRequests := stopRequests + 1;
      } else {
        hasPlayer := true;
      }
      cancelled := false;
      frameNumber := 0;
      S.StartGrabInv(before, introScreenshot);
    }

    /**
     * `CompareFrames` while no other step interleaves: it turns until it is cancelled or
     * the queue is empty (where the real loop would wait for the decoder).
     */
    method CompareFrames()
      requires Valid()
      modifies this
      ensures Valid()
      ensures old(cancelled) ==> State() == old(State())
      ensures !old(cancelled) ==>
        |filesToProcess| == 0 && State() == S.CompareSteps(old(State()), exactComparer, |old(filesToProcess)|)
    {
      ghost var start := State();
      ghost var done: nat := 0;
      while !cancelled && |filesToProcess| > 0
        invariant Valid()
        invariant done <= |start.queue|
        invariant State() == S.CompareSteps(start, exactComparer, done)
        invariant cancelled == start.cancelled
        invariant !start.cancelled ==> filesToProcess == start.queue[done..]
        invariant start.cancelled ==> done == 0
        decreases |filesToProcess|
      {
        ghost var mid := State();
        var _, _ := CompareStep();
        S.CompareStepsSnoc(start, exactComparer, done);
        S.CompareStepsEffect(start, exactComparer, done + 1);
        done := done + 1;
      }
      if !start.cancelled {
        S.CompareStepsEffect(start, exactComparer, done);
      }
    }
  }
}
