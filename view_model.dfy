/**
 * The main view model: its change-notifying properties, the skip button's visibility,
 * the playback clock, and the wiring between the player, the profile window and the
 * frame analyser.
 */
module ViewModel {
  import opened Wrappers
  import S = AutoskipSpec
  import Autoskip
  import SkipWindow
  import TimeText

  /**
   * `Set<T>`: the new field and whether `PropertyChanged` is raised. The source's test,
   * "null to non-null, or non-null and not equal", is exactly "the value differs".
   */
  function Set<T(==)>(field: Option<T>, value: Option<T>): (r: (Option<T>, bool))
    ensures r.0 == value
    ensures r.1 <==> field != value
  {
    var changed := (field.None? && value.Some?) || (field.Some? && field != value);
    (if changed then value else field, changed)
  }

  /** A second `Set` with the same value raises nothing more and changes nothing. */
  lemma SetIdempotent<T>(field: Option<T>, value: Option<T>)
    ensures var (f, _) := Set(field, value);
      Set(f, value) == (f, false)
  {
  }

  /** The C# `long` sum: wrapped into 64 bits. */
  function AddLong(a: int, b: int): (r: int)
    requires S.InLong(a) && S.InLong(b)
    ensures S.InLong(r)
    ensures S.InLong(a + b) ==> r == a + b
    ensures a + b > S.Int64Max ==> r == a + b - 0x1_0000_0000_0000_0000
    ensures a + b < S.Int64Min ==> r == a + b + 0x1_0000_0000_0000_0000
  {
    var sum := a + b;
    if sum > S.Int64Max then sum - 0x1_0000_0000_0000_0000
    else if sum < S.Int64Min then sum + 0x1_0000_0000_0000_0000
    else sum
  }

  /** The seek target of the skip button: the intro's length past the match. */
  function SkipTarget(profile: SkipWindow.SkipProfile, matchFoundTimestamp: int): (target: int)
    requires S.InLong(matchFoundTimestamp)
    ensures S.InLong(target)
  {
    AddLong(SkipWindow.IntroLength(profile), matchFoundTimestamp)
  }

  /**
   * For any match found at a playback time below 2^62 ms (some 146 million years) the
   * target is exactly the intro's length, in minutes and seconds, past it.
   */
  lemma SkipTargetExact(profile: SkipWindow.SkipProfile, matchFoundTimestamp: int)
    requires 0 <= matchFoundTimestamp < 0x4000_0000_0000_0000
    ensures SkipTarget(profile, matchFoundTimestamp)
         == matchFoundTimestamp + 60_000 * profile.introMin as int + 1000 * profile.introSec as int
  {
  }

  /** `CanExecute`: every command may always run. */
  function CanExecute(): (r: bool)
    ensures r
  {
    true || false
  }

  /** How an event handler or command ended. */
  datatype Outcome =
    | Completed
    | NullReference      // a null player or profile was dereferenced
    | Overflow           // `TimeSpan.FromMilliseconds` was out of range

  /** The names `PropertyChanged` is raised with. */
  datatype Property = LibVLC | MediaPlayer | ButtonUpdateVisibility | PlaybackTime | FileLength

  /** `n` notifications of the same property. */
  function Repeat(p: Property, n: nat): (ps: seq<Property>)
    ensures |ps| == n && forall i :: 0 <= i < n ==> ps[i] == p
  {
    if n == 0 then [] else Repeat(p, n - 1) + [p]
  }

  /** What LibVLC gives out, by identity. */
  type LibVLCHandle = nat
  type PlayerHandle = nat

  const Visible: string := "Visible"
  const Hidden: string := "Hidden"

  class MainViewModel {
    var libVLC: Option<LibVLCHandle>
    var mediaPlayer: Option<PlayerHandle>
    var buttonUpdateVisibility: string
    var playbackTime: string
    var fileLength: string
    var matchFoundTimestamp: int
    /** The `PropertyChanged` events raised, by property name, oldest first. */
    var notifications: seq<Property>
    /** The values assigned to the player's `Time`, oldest first: the seeks asked for. */
    var seeks: seq<int>

    /** The frame analyser that `OnLoad` creates and the profile window. */
    const processAutoskip: Autoskip.ProcessAutoskip
    const skipWindow: SkipWindow.AutoSkipWindow

    ghost predicate Valid()
      reads this
    {
      S.InLong(matchFoundTimestamp)
    }

    /**
     * The view model after `raised` `MatchFound` events, each handled by `ShowSkipBtn`
     * with the player time `playerTime`, from a state with player `player0`, notifications
     * `notes0`, match time `time0` and visibility `visibility0`: with a player, each event
     * notifies once and the button ends Visible at that time; without one, each throws
     * before changing anything.
     */
    ghost predicate AfterMatches(raised: nat, playerTime: int, player0: Option<PlayerHandle>,
                                 notes0: seq<Property>, time0: int, visibility0: string)
      reads this
    {
      && notifications == notes0 + (if player0.Some? then Repeat(Property.ButtonUpdateVisibility, raised) else [])
      && (player0.Some? && raised > 0 ==> matchFoundTimestamp == playerTime && buttonUpdateVisibility == Visible)
      && (player0.None? || raised == 0 ==> matchFoundTimestamp == time0 && buttonUpdateVisibility == visibility0)
    }

    /**
     * The empty `MainViewModel()` constructor. The analyser passed in stands for the one
     * `OnLoad` creates and subscribes `ShowSkipBtn` to; `OnLoad`'s other work, creating
     * LibVLC and playing a first file, is not modelled, so no player exists yet.
     */
    constructor (processAutoskip: Autoskip.ProcessAutoskip, skipWindow: SkipWindow.AutoSkipWindow)
      ensures Valid()
      ensures this.processAutoskip == processAutoskip && this.skipWindow == skipWindow
      ensures libVLC.None? && mediaPlayer.None? && matchFoundTimestamp == 0
      ensures notifications == [] && seeks == []
    {
      this.processAutoskip, this.skipWindow := processAutoskip, skipWindow;
      libVLC, mediaPlayer, matchFoundTimestamp := None, None, 0;
      buttonUpdateVisibility, playbackTime, fileLength := "", "", "";
      notifications, seeks := [], [];
    }

    /** The `LibVLC` property's private setter. */
    method SetLibVLC(value: Option<LibVLCHandle>)
      modifies this
      ensures libVLC == value
      ensures notifications == old(notifications) + (if old(libVLC) != value then [Property.LibVLC] else [])
      ensures mediaPlayer == old(mediaPlayer) && buttonUpdateVisibility == old(buttonUpdateVisibility)
      ensures matchFoundTimestamp == old(matchFoundTimestamp) && seeks == old(seeks)
      ensures playbackTime == old(playbackTime) && fileLength == old(fileLength)
    {
      var (field, raised) := Set(libVLC, value);
      libVLC := field;
      if raised {
        notifications := notifications + [Property.LibVLC];
      }
    }

    /** The `MediaPlayer` property's private setter. */
    method SetMediaPlayer(value: Option<PlayerHandle>)
      modifies this
      ensures mediaPlayer == value
      ensures notifications == old(notifications) + (if old(mediaPlayer) != value then [Property.MediaPlayer] else [])
      ensures libVLC == old(libVLC) && buttonUpdateVisibility == old(buttonUpdateVisibility)
      ensures matchFoundTimestamp == old(matchFoundTimestamp) && seeks == old(seeks)
      ensures playbackTime == old(playbackTime) && fileLength == old(fileLength)
    {
      var (field, raised) := Set(mediaPlayer, value);
      mediaPlayer := field;
      if raised {
        notifications := notifications + [Property.MediaPlayer];
      }
    }

    /** The `ButtonUpdateVisibility` setter notifies on every assignment. */
    method SetButtonUpdateVisibility(value: string)
      modifies this
      ensures buttonUpdateVisibility == value
      ensures notifications == old(notifications) + [Property.ButtonUpdateVisibility]
      ensures libVLC == old(libVLC) && mediaPlayer == old(mediaPlayer)
      ensures matchFoundTimestamp == old(matchFoundTimestamp) && seeks == old(seeks)
      ensures playbackTime == old(playbackTime) && fileLength == old(fileLength)
    {
      buttonUpdateVisibility := value;
      notifications := notifications + [Property.ButtonUpdateVisibility];
    }

    /**
     * `ShowSkipBtn`, the `MatchFound` handler: the player's time is kept as the match's
     * time and the skip button is shown. Without a player it throws before changing
     * anything.
     */
    method ShowSkipBtn(playerTime: int) returns (outcome: Outcome)
      requires Valid() && S.InLong(playerTime)
      modifies this
      ensures Valid()
      ensures outcome == NullReference <==> old(mediaPlayer).None?
      ensures outcome == Completed <==> old(mediaPlayer).Some?
      ensures outcome == Completed ==>
        matchFoundTimestamp == playerTime && buttonUpdateVisibility == Visible
        && notifications == old(notifications) + [Property.ButtonUpdateVisibility]
      ensures outcome == NullReference ==>
        matchFoundTimestamp == old(matchFoundTimestamp) && buttonUpdateVisibility == old(buttonUpdateVisibility)
        && notifications == old(notifications)
      ensures libVLC == old(libVLC) && mediaPlayer == old(mediaPlayer) && seeks == old(seeks)
      ensures playbackTime == old(playbackTime) && fileLength == old(fileLength)
    {
      if mediaPlayer.None? {
        return NullReference;
      }
      matchFoundTimestamp := playerTime;
      SetButtonUpdateVisibility(Visible);
      outcome := Completed;
    }

    /**
     * The synchronous start of `CompareFrames`, with `ShowSkipBtn` subscribed to
     * `MatchFound`: every frame queued when the loop starts is compared before any
     * `await`, and each match calls `ShowSkipBtn` with the main player's time `playerTime`.
     * Without a main player the handler throws inside the first matching turn, which ends
     * the loop and faults the grab's task; `faulted` reports that case.
     */
    method CompareQueuedFrames(playerTime: int) returns (faulted: bool)
      requires Valid() && processAutoskip.Valid() && S.InLong(playerTime)
      requires !processAutoskip.cancelled
      modifies this, processAutoskip
      ensures Valid() && processAutoskip.Valid()
      ensures var start := old(processAutoskip.State());
        var done := |start.queue| - |processAutoskip.filesToProcess|;
        && 0 <= done <= |start.queue|
        && processAutoskip.State() == S.CompareSteps(start, processAutoskip.exactComparer, done)
        && (!faulted ==> done == |start.queue|)
      ensures var raised := |processAutoskip.matchLog| - |old(processAutoskip.matchLog)|;
        && raised >= 0
        && (faulted <==> old(mediaPlayer).None? && raised > 0)
        && (faulted ==> raised == 1)
        && AfterMatches(raised, playerTime, old(mediaPlayer), old(notifications),
                        old(matchFoundTimestamp), old(buttonUpdateVisibility))
      ensures libVLC == old(libVLC) && mediaPlayer == old(mediaPlayer) && seeks == old(seeks)
      ensures playbackTime == old(playbackTime) && fileLength == old(fileLength)
    {
      ghost var start := processAutoskip.State();
      ghost var cmp := processAutoskip.exactComparer;
      ghost var done: nat := 0;
      ghost var raised: nat := 0;
      faulted := false;
      while !faulted && !processAutoskip.cancelled && |processAutoskip.filesToProcess| > 0
        invariant Valid() && processAutoskip.Valid()
        invariant !processAutoskip.cancelled && done <= |start.queue|
        invariant processAutoskip.State() == S.CompareSteps(start, cmp, done)
        invariant processAutoskip.filesToProcess == start.queue[done..]
        invariant |processAutoskip.matchLog| == |start.matches| + raised
        invariant faulted <==> old(mediaPlayer).None? && raised > 0
        invariant faulted ==> raised == 1
        invariant AfterMatches(raised, playerTime, old(mediaPlayer), old(notifications),
                               old(matchFoundTimestamp), old(buttonUpdateVisibility))
        invariant libVLC == old(libVLC) && mediaPlayer == old(mediaPlayer) && seeks == old(seeks)
        invariant playbackTime == old(playbackTime) && fileLength == old(fileLength)
        decreases |processAutoskip.filesToProcess|
      {
        ghost var mid := processAutoskip.State();
        S.CompareStepMatchIff(mid, cmp);
        var _, matched := processAutoskip.CompareStep();
        S.CompareStepsSnoc(start, cmp, done);
        assert start.queue[done..][1..] == start.queue[done + 1..];
        done := done + 1;
        if matched {
          ghost var before := notifications;
          var outcome := ShowSkipBtn(playerTime);
          if mediaPlayer.Some? {
            assert outcome == Completed;
            assert notifications == before + [Property.ButtonUpdateVisibility];
            assert Repeat(Property.ButtonUpdateVisibility, raised + 1)
                == Repeat(Property.ButtonUpdateVisibility, raised) + [Property.ButtonUpdateVisibility];
          } else {
            assert notifications == before;
          }
          raised := raised + 1;
          faulted := outcome == NullReference;
        }
      }
    }

    /**
     * `StartAutoSkip`: with a current profile, its intro frame is handed to the analyser
     * and a grab starts; without one nothing happens. The grab is not awaited, but an
     * `async` method runs synchronously up to its first incomplete `await`, and the
     * dequeuing path of `CompareFrames` never awaits: the frames still queued are all
     * compared, as `CompareQueuedFrames` states, before this call returns. A fault of the
     * grab's task is not observed by the caller.
     */
    method StartAutoSkip(grabMedia: string, playerTime: int) returns (ghost grabbed: S.State)
      requires Valid() && processAutoskip.Valid() && S.InLong(playerTime)
      modifies this, processAutoskip
      ensures Valid() && processAutoskip.Valid()
      ensures skipWindow.currentProfile.None? ==>
        && processAutoskip.State() == old(processAutoskip.State())
        && notifications == old(notifications) && matchFoundTimestamp == old(matchFoundTimestamp)
        && buttonUpdateVisibility == old(buttonUpdateVisibility)
      ensures var profile := skipWindow.currentProfile;
        profile.Some? ==>
          var intro := profile.value.serializedIntro;
          && grabbed == S.StartGrab(S.SetReference(old(processAutoskip.State()), intro), intro)
          && var done := |grabbed.queue| - |processAutoskip.filesToProcess|;
          && 0 <= done <= |grabbed.queue|
          && processAutoskip.State() == S.CompareSteps(grabbed, processAutoskip.exactComparer, done)
          && processAutoskip.matchLog
               == old(processAutoskip.matchLog) + S.MatchLog(grabbed.queue[..done], 0, processAutoskip.exactComparer, intro)
          && (old(mediaPlayer).Some? ==> done == |grabbed.queue|)
          && (old(mediaPlayer).None? ==> |processAutoskip.matchLog| <= |old(processAutoskip.matchLog)| + 1)
      ensures var raised := |processAutoskip.matchLog| - |old(processAutoskip.matchLog)|;
        && raised >= 0
        && AfterMatches(raised, playerTime, old(mediaPlayer), old(notifications),
                        old(matchFoundTimestamp), old(buttonUpdateVisibility))
      ensures libVLC == old(libVLC) && mediaPlayer == old(mediaPlayer) && seeks == old(seeks)
      ensures playbackTime == old(playbackTime) && fileLength == old(fileLength)
    {
      grabbed := processAutoskip.State();
      var profile := skipWindow.currentProfile;
      if profile.Some? {
        var intro := profile.value.serializedIntro;
        processAutoskip.SetIntroScreenshot(intro);
        processAutoskip.StartGrab(grabMedia);
        grabbed := processAutoskip.State();
        assert grabbed == S.StartGrab(S.SetReference(old(processAutoskip.State()), intro), intro);
        assert grabbed.matches == old(processAutoskip.matchLog) && grabbed.reference == intro;
        var _ := CompareQueuedFrames(playerTime);
        ghost var done := |grabbed.queue| - |processAutoskip.filesToProcess|;
        S.CompareStepsEffect(grabbed, processAutoskip.exactComparer, done);
      }
    }

    /**
     * `Play` as far as the view model sees it: the old player is dropped and a new one
     * becomes the `MediaPlayer`.
     */
    method Play(player: PlayerHandle)
      modifies this
      ensures mediaPlayer == Some(player)
      ensures notifications == old(notifications) + (if old(mediaPlayer).Some? then [Property.MediaPlayer] else [])
                               + [Property.MediaPlayer]
      ensures libVLC == old(libVLC) && buttonUpdateVisibility == old(buttonUpdateVisibility)
      ensures matchFoundTimestamp == old(matchFoundTimestamp) && seeks == old(seeks)
      ensures playbackTime == old(playbackTime) && fileLength == old(fileLength)
    {
      SetMediaPlayer(None);
      SetMediaPlayer(Some(player));
    }

    /**
     * `videoviewDrop`: the skip button is hidden first, then the grab starts, comparing the
     * frames still queued (a match among them shows the button again, with the old main
     * player's time `playerTime`), then the file plays in a new player. A fault of the
     * grab's task does not reach this handler.
     */
    method VideoviewDrop(fileName: string, player: PlayerHandle, playerTime: int)
      requires Valid() && processAutoskip.Valid() && S.InLong(playerTime)
      modifies this, processAutoskip
      ensures Valid() && processAutoskip.Valid()
      ensures mediaPlayer == Some(player)
      ensures var raised := |processAutoskip.matchLog| - |old(processAutoskip.matchLog)|;
        var shown := old(mediaPlayer).Some? && raised > 0;
        && raised >= 0
        && buttonUpdateVisibility == (if shown then Visible else Hidden)
        && matchFoundTimestamp == (if shown then playerTime else old(matchFoundTimestamp))
        && notifications == old(notifications) + [Property.ButtonUpdateVisibility]
             + (if old(mediaPlayer).Some? then Repeat(Property.ButtonUpdateVisibility, raised) else [])
             + (if old(mediaPlayer).Some? then [Property.MediaPlayer] else [])
             + [Property.MediaPlayer]
      ensures skipWindow.currentProfile.None? ==> processAutoskip.State() == old(processAutoskip.State())
      ensures var profile := skipWindow.currentProfile;
        profile.Some? ==>
          var intro := profile.value.serializedIntro;
          var g := S.StartGrab(S.SetReference(old(processAutoskip.State()), intro), intro);
          var done := |g.queue| - |processAutoskip.filesToProcess|;
          && 0 <= done <= |g.queue|
          && processAutoskip.State() == S.CompareSteps(g, processAutoskip.exactComparer, done)
          && (old(mediaPlayer).Some? ==> done == |g.queue|)
      ensures libVLC == old(libVLC) && seeks == old(seeks)
      ensures playbackTime == old(playbackTime) && fileLength == old(fileLength)
    {
      SetButtonUpdateVisibility(Hidden);
      var _ := StartAutoSkip(fileName, playerTime);
      Play(player);
    }

    /** The `PlaybackTime` setter notifies on every assignment. */
    method SetPlaybackTime(value: string)
      modifies this
      ensures playbackTime == value
      ensures notifications == old(notifications) + [Property.PlaybackTime]
      ensures libVLC == old(libVLC) && mediaPlayer == old(mediaPlayer) && buttonUpdateVisibility == old(buttonUpdateVisibility)
      ensures matchFoundTimestamp == old(matchFoundTimestamp) && seeks == old(seeks) && fileLength == old(fileLength)
    {
      playbackTime := value;
      notifications := notifications + [Property.PlaybackTime];
    }

    /** The `FileLength` setter notifies on every assignment. */
    method SetFileLength(value: string)
      modifies this
      ensures fileLength == value
      ensures notifications == old(notifications) + [Property.FileLength]
      ensures libVLC == old(libVLC) && mediaPlayer == old(mediaPlayer) && buttonUpdateVisibility == old(buttonUpdateVisibility)
      ensures matchFoundTimestamp == old(matchFoundTimestamp) && seeks == old(seeks) && playbackTime == old(playbackTime)
    {
      fileLength := value;
      notifications := notifications + [Property.FileLength];
    }

    /**
     * `MediaPlayer_TimeChanged`: the playback time and then the file length are shown as
     * clocks. Without a player it throws first; an out-of-range time throws before either
     * is set; an out-of-range length throws after the time is set.
     */
    method TimeChanged(time: int, length: int) returns (outcome: Outcome)
      requires Valid() && S.InLong(time) && S.InLong(length)
      modifies this
      ensures libVLC == old(libVLC) && mediaPlayer == old(mediaPlayer) && seeks == old(seeks)
      ensures buttonUpdateVisibility == old(buttonUpdateVisibility) && matchFoundTimestamp == old(matchFoundTimestamp)
      ensures Valid()
      ensures mediaPlayer.None? ==>
        outcome == NullReference && playbackTime == old(playbackTime) && fileLength == old(fileLength)
        && notifications == old(notifications)
      ensures mediaPlayer.Some? && !TimeText.Representable(time) ==>
        outcome == Overflow && playbackTime == old(playbackTime) && fileLength == old(fileLength)
        && notifications == old(notifications)
      ensures mediaPlayer.Some? && TimeText.Representable(time) && !TimeText.Representable(length) ==>
        outcome == Overflow && playbackTime == TimeText.ClockText(time) && fileLength == old(fileLength)
        && notifications == old(notifications) + [Property.PlaybackTime]
      ensures mediaPlayer.Some? && TimeText.Representable(time) && TimeText.Representable(length) ==>
        outcome == Completed && playbackTime == TimeText.ClockText(time) && fileLength == TimeText.ClockText(length)
        && notifications == old(notifications) + [Property.PlaybackTime, Property.FileLength]
    {
      if mediaPlayer.None? {
        return NullReference;
      }
      if !TimeText.Representable(time) {
        return Overflow;
      }
      var clock := TimeText.ClockText(time);
      SetPlaybackTime(clock);
      assert notifications == old(notifications) + [Property.PlaybackTime];
      if !TimeText.Representable(length) {
        return Overflow;
      }
      var total := TimeText.ClockText(length);
      SetFileLength(total);
      assert notifications == old(notifications) + [Property.PlaybackTime, Property.FileLength];
      outcome := Completed;
    }

    /**
     * `Skip_Clicked`: the player seeks the intro's length past the match. Without a
     * current profile or a player it throws before seeking.
     */
    method SkipClicked() returns (outcome: Outcome)
      requires Valid()
      modifies this
      ensures Valid()
      ensures outcome == NullReference <==> skipWindow.currentProfile.None? || old(mediaPlayer).None?
      ensures outcome == Completed ==>
        seeks == old(seeks) + [SkipTarget(skipWindow.currentProfile.value, old(matchFoundTimestamp))]
      ensures outcome != Completed ==> seeks == old(seeks)
      ensures outcome != Overflow
      ensures libVLC == old(libVLC) && mediaPlayer == old(mediaPlayer) && notifications == old(notifications)
      ensures buttonUpdateVisibility == old(buttonUpdateVisibility) && matchFoundTimestamp == old(matchFoundTimestamp)
      ensures playbackTime == old(playbackTime) && fileLength == old(fileLength)
    {
      var profile := skipWindow.currentProfile;
      if mediaPlayer.None? || profile.None? {
        return NullReference;
      }
      seeks := seeks + [AddLong(SkipWindow.IntroLength(profile.value), matchFoundTimestamp)];
      outcome := Completed;
    }
  }
}
