/**
 * The profile window: the saved skip profiles, the profile being edited, and the
 * conversion of a profile's intro length from minutes and seconds to milliseconds.
 */
module SkipWindow {
  import opened Wrappers
  import S = AutoskipSpec

  /**
   * A skip profile. Its fields are filled in once, when the profile is saved or read
   * back, and never changed afterwards, so it is a value here.
   */
  datatype SkipProfile = SkipProfile(
    name: string,
    introMin: int32,
    introSec: int32,
    outroLength: int32,
    serializedIntro: Bytes,        // the intro reference frame, JPEG-encoded
    serializedOutro: Bytes)

  const TicksPerMillisecond: int := 10_000
  const TicksPerSecond: int := 10_000_000
  const TicksPerMinute: int := 600_000_000

  /** `TimeSpan.FromMinutes` of a whole number: exact, and far inside the span's range. */
  function FromMinutes(minutes: int32): (ticks: int)
    ensures ticks == TicksPerMillisecond * (60_000 * minutes as int)
  {
    minutes as int * TicksPerMinute
  }

  /** `TimeSpan.FromSeconds` of a whole number. */
  function FromSeconds(seconds: int32): (ticks: int)
    ensures ticks == TicksPerMillisecond * (1000 * seconds as int)
  {
    seconds as int * TicksPerSecond
  }

  /**
   * `introLength`: the sum of the two spans, as whole milliseconds in a `long`. The sum of
   * two spans built from `int`s cannot leave a `long`'s range, and its milliseconds are
   * whole, so with .NET Framework's `TotalMilliseconds` neither the sum nor the final
   * cast loses anything.
   */
  function IntroLength(p: SkipProfile): (ms: int)
    ensures ms == 60_000 * p.introMin as int + 1000 * p.introSec as int
    ensures S.InLong(ms)
  {
    var ticks := FromMinutes(p.introMin) + FromSeconds(p.introSec);
    assert ticks == TicksPerMillisecond * (60_000 * p.introMin as int + 1000 * p.introSec as int);
    ticks / TicksPerMillisecond
  }

  /** (0, 0) is no intro at all; one more second is 1000 more, one more minute 60000. */
  lemma IntroLengthSteps(p: SkipProfile)
    ensures p.introMin == 0 && p.introSec == 0 ==> IntroLength(p) == 0
    ensures p.introSec < 0x7FFF_FFFF ==> IntroLength(p.(introSec := p.introSec + 1)) == IntroLength(p) + 1000
    ensures p.introMin < 0x7FFF_FFFF ==> IntroLength(p.(introMin := p.introMin + 1)) == IntroLength(p) + 60_000
  {
  }

  /** A length entered as minutes and fewer than 60 seconds can be read back from it. */
  lemma IntroLengthSplit(p: SkipProfile)
    requires 0 <= p.introMin && 0 <= p.introSec < 60
    ensures IntroLength(p) / 60_000 == p.introMin as int
    ensures IntroLength(p) % 60_000 / 1000 == p.introSec as int
  {
    var ms := IntroLength(p);
    var m, s := p.introMin as int, p.introSec as int;
    assert ms == 60_000 * m + 1000 * s && 0 <= 1000 * s < 60_000;
    DivMod(ms, 60_000, m, 1000 * s);
  }

  lemma DivMod(n: int, d: int, q: int, r: int)
    requires d > 0 && 0 <= r < d && n == d * q + r
    ensures n / d == q && n % d == r
  {
    var q0, r0 := n / d, n % d;
    assert d * (q0 - q) == r - r0;
    if q0 > q {
      MulAtLeast(d, q0 - q);
    } else if q0 < q {
      MulAtLeast(d, q - q0);
    }
  }

  lemma MulAtLeast(d: int, k: int)
    requires d > 0 && k >= 1
    ensures d * k >= d
  {
  }

  /** What the save button reports. */
  datatype SaveOutcome =
    | Saved
    | EmptyName        // "Please fill out everything."
    | NoIntroImage     // no reference frame loaded: encoding it throws

  /** A picture that ImageSharp decoded, by identity. */
  type Picture = nat

  class AutoSkipWindow {
    /** The combo box's items. */
    var list: seq<SkipProfile>
    /** The profiles, as last written to the profile file. */
    var profiles: seq<SkipProfile>
    /** The profile file: absent until the first save when it did not exist at start-up. */
    var stored: Option<seq<SkipProfile>>
    /** Whether the combo box shows `list`; only when the profile file existed at start-up. */
    var itemsBound: bool
    var currentProfile: Option<SkipProfile>
    var selectedIndex: int
    var profileText: string
    var introLengthMin: int32
    var introLengthSec: int32
    var outroLengthMin: int32
    var outroLengthSec: int32
    var saveEnabled: bool
    var introImage: Option<Picture>

    /** Encoding a picture as JPEG, and decoding bytes back into a picture. */
    const encodeJpeg: Picture -> Bytes
    const loadImage: Bytes -> Picture

    /**
     * The window's invariant: the combo box items are the profiles, the profile file
     * holds them once it exists, and the selection is an item or none.
     */
    ghost predicate Valid()
      reads this
    {
      && list == profiles
      && (stored.None? ==> profiles == [])
      && (stored.Some? ==> stored.value == profiles)
      && -1 <= selectedIndex < |list|
      && (!itemsBound ==> selectedIndex == -1)
    }

    /**
     * The constructor: the profiles are read from the profile file when it exists and
     * each is added to the combo box's items, in the file's order.
     */
    constructor (file: Option<seq<SkipProfile>>, encodeJpeg: Picture -> Bytes, loadImage: Bytes -> Picture)
      ensures Valid()
      ensures stored == file && itemsBound == file.Some?
      ensures profiles == (if file.Some? then file.value else []) && list == profiles
      ensures currentProfile.None? && selectedIndex == -1 && introImage.None? && saveEnabled
      ensures introLengthMin == 0 && introLengthSec == 0 && outroLengthMin == 0 && outroLengthSec == 0
      ensures this.encodeJpeg == encodeJpeg && this.loadImage == loadImage
    {
      this.encodeJpeg, this.loadImage := encodeJpeg, loadImage;
      stored, currentProfile, selectedIndex, profileText := file, None, -1, "";
      introLengthMin, introLengthSec, outroLengthMin, outroLengthSec := 0, 0, 0, 0;
      saveEnabled, introImage := true, None;
      var items: seq<SkipProfile> := [];
      var loaded: seq<SkipProfile> := [];
      if file.Some? {
        loaded := file.value;
        var i := 0;
        while i < |loaded|
          invariant 0 <= i <= |loaded|
          invariant items == loaded[..i]
        {
          items := items + [loaded[i]];
          i := i + 1;
        }
        assert loaded[..i] == loaded;
      }
      profiles, itemsBound := loaded, file.Some?;
      list := items;
    }

    /** `SaveProfile`: the profile goes to the end of the list, which is written out. */
    method SaveProfile(profile: SkipProfile)
      modifies this
      ensures profiles == old(profiles) + [profile] && stored == Some(profiles)
      ensures list == old(list) && currentProfile == old(currentProfile) && selectedIndex == old(selectedIndex)
      ensures itemsBound == old(itemsBound) && saveEnabled == old(saveEnabled)
      ensures profileText == old(profileText) && introImage == old(introImage)
      ensures introLengthMin == old(introLengthMin) && introLengthSec == old(introLengthSec)
      ensures outroLengthMin == old(outroLengthMin) && outroLengthSec == old(outroLengthSec)
    {
      profiles := profiles + [profile];
      stored := Some(profiles);
    }

    /** The profile the save button builds from the fields and the encoded intro frame. */
    function NewProfile(): (p: SkipProfile)
      reads this
      requires introImage.Some?
      ensures p.name == profileText && p.introMin == introLengthMin && p.introSec == introLengthSec
      ensures p.outroLength == outroLengthMin
      ensures p.serializedIntro == p.serializedOutro == encodeJpeg(introImage.value)
    {
      var encoded := encodeJpeg(introImage.value);
      SkipProfile(profileText, introLengthMin, introLengthSec, outroLengthMin, encoded, encoded)
    }

    /**
     * The save button. Without a name nothing changes; without an intro frame encoding
     * throws before anything changes; otherwise the new profile is saved, becomes the
     * current profile and the last item, and saving is disabled.
     */
    method SaveProfileClick() returns (outcome: SaveOutcome)
      requires Valid()
      modifies this
      ensures Valid()
      ensures outcome == EmptyName <==> |old(profileText)| == 0
      ensures outcome == NoIntroImage <==> |old(profileText)| > 0 && old(introImage).None?
      ensures outcome != Saved ==>
        profiles == old(profiles) && list == old(list) && stored == old(stored)
        && currentProfile == old(currentProfile) && saveEnabled == old(saveEnabled)
      ensures outcome == Saved ==>
        var p := old(NewProfile());
        && profiles == old(profiles) + [p] && list == old(list) + [p] && stored == Some(profiles)
        && currentProfile == Some(p) && list[|list| - 1] == p && !saveEnabled
      ensures selectedIndex == old(selectedIndex) && profileText == old(profileText)
      ensures introImage == old(introImage) && itemsBound == old(itemsBound)
      ensures introLengthMin == old(introLengthMin) && introLengthSec == old(introLengthSec)
      ensures outroLengthMin == old(outroLengthMin) && outroLengthSec == old(outroLengthSec)
    {
      if |profileText| == 0 {
        return EmptyName;
      }
      if introImage.None? {
        return NoIntroImage;
      }
      var newSkipProfile := SkipProfile(profileText, introLengthMin, introLengthSec, outroLengthMin, [], []);
      var encoded := encodeJpeg(introImage.value);
      newSkipProfile := newSkipProfile.(serializedIntro := encoded, serializedOutro := encoded);
      SaveProfile(newSkipProfile);
      currentProfile := Some(newSkipProfile);
      list := list + [newSkipProfile];
      saveEnabled := false;
      outcome := Saved;
    }

    /** The new-profile button: no selection, all four lengths 0, saving enabled. */
    method NewProfileClick()
      requires Valid()
      modifies this
      ensures Valid()
      ensures selectedIndex == -1 && saveEnabled
      ensures introLengthMin == 0 && introLengthSec == 0 && outroLengthMin == 0 && outroLengthSec == 0
      ensures list == old(list) && profiles == old(profiles) && stored == old(stored)
      ensures currentProfile == old(currentProfile) && introImage == old(introImage)
      ensures profileText == old(profileText) && itemsBound == old(itemsBound)
    {
      selectedIndex := -1;
      introLengthMin, introLengthSec, outroLengthMin, outroLengthSec := 0, 0, 0, 0;
      saveEnabled := true;
    }

    /**
     * `LoadProfile`: the fields show the profile (both outro fields show its one outro
     * length), its intro frame is decoded, it becomes the current profile, and saving is
     * disabled.
     */
    method LoadProfile(profile: SkipProfile)
      requires Valid()
      modifies this
      ensures Valid()
      ensures introLengthMin == profile.introMin && introLengthSec == profile.introSec
      ensures outroLengthMin == profile.outroLength && outroLengthSec == profile.outroLength
      ensures introImage == Some(loadImage(profile.serializedIntro))
      ensures currentProfile == Some(profile) && !saveEnabled
      ensures list == old(list) && profiles == old(profiles) && stored == old(stored)
      ensures selectedIndex == old(selectedIndex) && profileText == old(profileText)
      ensures itemsBound == old(itemsBound)
    {
      introLengthMin, introLengthSec := profile.introMin, profile.introSec;
      outroLengthMin, outroLengthSec := profile.outroLength, profile.outroLength;
      introImage := Some(loadImage(profile.serializedIntro));
      currentProfile := Some(profile);
      saveEnabled := false;
    }

    /** The combo box selection changes to `index`; an item selected is loaded. */
    method SelectionChanged(index: int)
      requires Valid()
      requires -1 <= index && (index >= 0 ==> itemsBound && index < |list|)
      modifies this
      ensures Valid() && selectedIndex == index
      ensures index > -1 ==> currentProfile == Some(old(list)[index]) && !saveEnabled
      ensures index == -1 ==> currentProfile == old(currentProfile) && saveEnabled == old(saveEnabled)
      ensures list == old(list) && profiles == old(profiles) && stored == old(stored)
    {
      selectedIndex := index;
      if index > -1 {
        LoadProfile(list[index]);
      }
    }

    /**
     * The intro-reference button: a picked frame becomes the intro image. The button's
     * click enables saving whether or not a frame was picked.
     */
    method LoadIntroReference(picked: Option<Picture>)
      requires Valid()
      modifies this
      ensures Valid() && saveEnabled
      ensures introImage == (if picked.Some? then picked else old(introImage))
      ensures list == old(list) && profiles == old(profiles) && stored == old(stored)
      ensures currentProfile == old(currentProfile) && selectedIndex == old(selectedIndex)
    {
      if picked.Some? {
        introImage := picked;
      }
      saveEnabled := true;
    }

    /** Editing the intro length fields enables saving. */
    method EditIntroLength(minutes: int32, seconds: int32)
      requires Valid()
      modifies this
      ensures Valid() && saveEnabled
      ensures introLengthMin == minutes && introLengthSec == seconds
      ensures outroLengthMin == old(outroLengthMin) && outroLengthSec == old(outroLengthSec)
      ensures list == old(list) && profiles == old(profiles) && stored == old(stored)
      ensures currentProfile == old(currentProfile) && selectedIndex == old(selectedIndex)
      ensures profileText == old(profileText) && introImage == old(introImage)
    {
      introLengthMin, introLengthSec := minutes, seconds;
      saveEnabled := true;
    }

    /** Typing a profile name changes the text and nothing else. */
    method EditProfileName(text: string)
      requires Valid()
      modifies this
      ensures Valid() && profileText == text
      ensures saveEnabled == old(saveEnabled) && introImage == old(introImage)
      ensures list == old(list) && profiles == old(profiles) && stored == old(stored)
      ensures currentProfile == old(currentProfile) && selectedIndex == old(selectedIndex)
      ensures introLengthMin == old(introLengthMin) && introLengthSec == old(introLengthSec)
      ensures outroLengthMin == old(outroLengthMin) && outroLengthSec == old(outroLengthSec)
    {
      profileText := text;
    }
  }
}
