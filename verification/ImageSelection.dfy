/** Which image in the table a controller is offered. */
module ImageSelection {
  import opened Words

  datatype SoftwareVersion = SoftwareVersion(major: u8, minor: u8, revision: u8, patch: u8)
  datatype HardwareVersion = HardwareVersion(manufacturer: u8, model: u8, hwRevision: u8, lotCode: u16)

  const AUDIO_THEME_DEFAULT := 1
  const AUDIO_THEME_INVALID := 10

  /** One row of the image table; its position is its image id. */
  datatype Image = Image(
    imageType: nat, controllerType: nat, audioTheme: nat,
    software: SoftwareVersion, bootloaderMin: SoftwareVersion, hardwareMin: HardwareVersion,
    size: u32, crc: u32, forceUpdate: bool, typeZ: bool, archive: string)

  datatype Controller = Controller(
    imageType: nat, controllerType: nat,
    hardware: HardwareVersion, bootloader: SoftwareVersion, software: SoftwareVersion, typeZ: bool)

  // ---------- the four version predicates ----------

  /** A software version as the 32-bit number it is compared by. */
  function Packed(v: SoftwareVersion): u32 {
    v.major * 0x100_0000 + v.minor * 0x1_0000 + v.revision * 0x100 + v.patch
  }

  predicate NotEqual(current: SoftwareVersion, proposed: SoftwareVersion) { Packed(proposed) != Packed(current) }
  predicate Higher(current: SoftwareVersion, proposed: SoftwareVersion) { Packed(proposed) > Packed(current) }
  predicate MinimumMet(current: SoftwareVersion, minimum: SoftwareVersion) { Packed(current) >= Packed(minimum) }

  predicate HardwareMinimumMet(current: HardwareVersion, minimum: HardwareVersion) {
    current.manufacturer == minimum.manufacturer && current.model >= minimum.model
    && current.hwRevision >= minimum.hwRevision
  }

  /** Component by component, most significant first. */
  ghost predicate Below(a: SoftwareVersion, b: SoftwareVersion) {
    a.major < b.major || (a.major == b.major &&
    (a.minor < b.minor || (a.minor == b.minor &&
    (a.revision < b.revision || (a.revision == b.revision && a.patch < b.patch)))))
  }

  /** The packed predicates are the component-wise order of versions. */
  lemma PackedIsComponentwise(current: SoftwareVersion, other: SoftwareVersion)
    ensures NotEqual(current, other) <==> current != other
    ensures Higher(current, other) <==> Below(current, other)
    ensures MinimumMet(current, other) <==> !Below(current, other)
  {
  }

  // ---------- the selection loop ----------

  /** The row chosen so far, if any, and the version later rows are measured against. */
  datatype Choice = Choice(found: bool, id: nat, version: SoftwareVersion, forceUpdate: bool)

  predicate Compatible(c: Controller, image: Image) {
    image.imageType == c.imageType && image.controllerType == c.controllerType
    && (image.audioTheme == AUDIO_THEME_DEFAULT || image.audioTheme >= AUDIO_THEME_INVALID)
    && HardwareMinimumMet(c.hardware, image.hardwareMin)
    && MinimumMet(c.bootloader, image.bootloaderMin)
    && image.typeZ == c.typeZ
  }

  /** One turn of the loop over the table. */
  function Consider(c: Controller, best: Choice, id: nat, image: Image): Choice {
    if !Compatible(c, image) then best
    else if image.forceUpdate && NotEqual(c.software, image.software) then
      if !Higher(c.software, best.version) then Choice(true, id, image.software, true) else best
    else if Higher(c.software, image.software) && Higher(best.version, image.software) then
      Choice(true, id, image.software, false)
    else best
  }

  function Select(c: Controller, images: seq<Image>): Choice {
    if images == [] then Choice(false, 0, c.software, false)
    else Consider(c, Select(c, images[..|images| - 1]), |images| - 1, images[|images| - 1])
  }

  method IsImageAvailable(c: Controller, images: seq<Image>) returns (upgrade: Choice)
    ensures upgrade == Select(c, images)
    ensures SelectedRightly(c, images, upgrade)
  {
    upgrade := Choice(false, 0, c.software, false);
    assert images[..0] == [];
    for it := 0 to |images|
      invariant upgrade == Select(c, images[..it])
    {
      var image := images[it];
      assert images[..it + 1][..it] == images[..it];
      if Compatible(c, image) {
        if image.forceUpdate && NotEqual(c.software, image.software) {
          if !Higher(c.software, upgrade.version) {
            upgrade := Choice(true, it, image.software, true);
          }
        } else if Higher(c.software, image.software) {
          if Higher(upgrade.version, image.software) {
            upgrade := Choice(true, it, image.software, false);
          }
        }
      }
    }
    assert images[..|images|] == images;
    SelectionExact(c, images);
  }

  // ---------- what the loop selects ----------

  /** Row k is an upgrade for the controller. */
  ghost predicate Newer(c: Controller, images: seq<Image>, k: nat) {
    k < |images| && Compatible(c, images[k]) && Higher(c.software, images[k].software)
  }

  /** Row k is a forced replacement of another version, possibly an older one. */
  ghost predicate Forced(c: Controller, images: seq<Image>, k: nat) {
    k < |images| && Compatible(c, images[k]) && images[k].forceUpdate && NotEqual(c.software, images[k].software)
  }

  /** The upgrades that compete: those not forced, and the first upgrade in the table. */
  ghost predicate Contender(c: Controller, images: seq<Image>, k: nat) {
    Newer(c, images, k) && (!images[k].forceUpdate || forall j: nat :: j < k ==> !Newer(c, images, j))
  }

  /** The whole rule: the earliest of the highest contenders; with no upgrade at all, the last forced
      row; otherwise nothing. */
  ghost predicate SelectedRightly(c: Controller, images: seq<Image>, s: Choice) {
    if exists k: nat :: Newer(c, images, k) then
      && s.found && Contender(c, images, s.id)
      && s.version == images[s.id].software && s.forceUpdate == images[s.id].forceUpdate
      && (forall j: nat :: Contender(c, images, j) ==>
            !Higher(s.version, images[j].software) && (j < s.id ==> Higher(images[j].software, s.version)))
    else if exists k: nat :: Forced(c, images, k) then
      && s.found && Forced(c, images, s.id)
      && s.version == images[s.id].software && s.forceUpdate
      && (forall j: nat :: Forced(c, images, j) ==> j <= s.id)
    else
      !s.found && s.version == c.software
  }

  /** Rows keep their standing when one more row is appended. */
  lemma Appended(c: Controller, front: seq<Image>, image: Image, k: nat)
    requires k < |front|
    ensures Newer(c, front + [image], k) == Newer(c, front, k)
    ensures Forced(c, front + [image], k) == Forced(c, front, k)
    ensures Contender(c, front + [image], k) == Contender(c, front, k)
  {
    forall j: nat | j < |front| ensures Newer(c, front + [image], j) == Newer(c, front, j) {}
  }

  /** The step while no upgrade has been seen. */
  lemma FirstUpgradeStep(c: Controller, front: seq<Image>, image: Image, best: Choice)
    requires SelectedRightly(c, front, best)
    requires forall k: nat :: !Newer(c, front, k)
    ensures SelectedRightly(c, front + [image], Consider(c, best, |front|, image))
  {
    var n, images := |front|, front + [image];
    forall k: nat | k < n
      ensures !Newer(c, images, k) && Forced(c, images, k) == Forced(c, front, k)
    {
      Appended(c, front, image, k);
    }
    assert images[n] == image;
    if Newer(c, images, n) {
      assert Contender(c, images, n);
    } else if Forced(c, images, n) {
      assert forall k: nat :: !Newer(c, images, k);
    } else if k: nat :| Forced(c, front, k) {
      assert Forced(c, images, k);
      assert forall k: nat :: !Newer(c, images, k);
    } else {
      assert forall k: nat :: !Newer(c, images, k) && !Forced(c, images, k);
    }
  }

  /** The step once an upgrade has been seen. */
  lemma LaterUpgradeStep(c: Controller, front: seq<Image>, image: Image, best: Choice, first: nat)
    requires SelectedRightly(c, front, best)
    requires Newer(c, front, first)
    ensures SelectedRightly(c, front + [image], Consider(c, best, |front|, image))
  {
    var n, images := |front|, front + [image];
    forall k: nat | k < n
      ensures Newer(c, images, k) == Newer(c, front, k)
      ensures Contender(c, images, k) == Contender(c, front, k)
    {
      Appended(c, front, image, k);
    }
    assert images[n] == image && images[best.id] == front[best.id];
    assert Newer(c, images, first);
    assert Contender(c, images, best.id);
    var best' := Consider(c, best, n, image);
    assert Contender(c, images, n) <==> Newer(c, images, n) && !image.forceUpdate;
    assert best' == if Contender(c, images, n) && Higher(best.version, image.software)
                    then Choice(true, n, image.software, false) else best;
    forall j: nat | Contender(c, images, j)
      ensures !Higher(best'.version, images[j].software)
      ensures j < best'.id ==> Higher(images[j].software, best'.version)
    {
      if j < n { assert Contender(c, front, j) && images[j] == front[j]; }
    }
  }

  lemma {:induction false} SelectionExact(c: Controller, images: seq<Image>)
    ensures SelectedRightly(c, images, Select(c, images))
  {
    if images != [] {
      var front, image := images[..|images| - 1], images[|images| - 1];
      assert images == front + [image];
      SelectionExact(c, front);
      if k: nat :| Newer(c, front, k) {
        LaterUpgradeStep(c, front, image, Select(c, front), k);
      } else {
        FirstUpgradeStep(c, front, image, Select(c, front));
      }
    }
  }

  // ---------- which images fit a controller ----------

  /** Image type, controller type and type-Z flag are the controller's own; the audio theme is the default
      one or none; the hardware minimum is of the same maker and asks for no newer model or revision; and
      the bootloader is not below its minimum. */
  ghost predicate Fits(c: Controller, image: Image) {
    && image.imageType == c.imageType && image.controllerType == c.controllerType && image.typeZ == c.typeZ
    && (image.audioTheme == 1 || image.audioTheme >= 10)
    && image.hardwareMin.manufacturer == c.hardware.manufacturer
    && image.hardwareMin.model <= c.hardware.model && image.hardwareMin.hwRevision <= c.hardware.hwRevision
    && !Below(c.bootloader, image.bootloaderMin)
  }

  /** A higher version, or another one by force. */
  ghost predicate Replaces(c: Controller, image: Image) {
    Below(c.software, image.software) || (image.forceUpdate && image.software != c.software)
  }

  lemma FitsExactly(c: Controller, image: Image)
    ensures Fits(c, image) <==> Compatible(c, image)
  {
    PackedIsComponentwise(c.bootloader, image.bootloaderMin);
  }

  /** Whatever is offered is a row of the table that fits the controller, of a higher version or another one
      by force, and the version told is its own. */
  lemma OfferFits(c: Controller, images: seq<Image>)
    ensures var s := Select(c, images);
            if s.found then
              && s.id < |images| && Fits(c, images[s.id]) && s.version == images[s.id].software
              && s.forceUpdate == images[s.id].forceUpdate
              && Replaces(c, images[s.id])
            else s.version == c.software
  {
    SelectionExact(c, images);
    var s := Select(c, images);
    if s.found {
      FitsExactly(c, images[s.id]);
      PackedIsComponentwise(c.software, s.version);
    }
  }

  /** Something is offered exactly if some row fits and is of a higher version, or of another one by force. */
  lemma OfferedExactly(c: Controller, images: seq<Image>)
    ensures Select(c, images).found <==>
            exists k: nat :: k < |images| && Fits(c, images[k]) && Replaces(c, images[k])
  {
    OfferFits(c, images);
    SelectionExact(c, images);
    if k: nat :| k < |images| && Fits(c, images[k]) && Replaces(c, images[k]) {
      FitsExactly(c, images[k]);
      PackedIsComponentwise(c.software, images[k].software);
      assert Newer(c, images, k) || Forced(c, images, k);
    }
  }

  // ---------- consequences ----------

  /** A forced downgrade is never chosen while an upgrade is available. */
  lemma UpgradeBeatsDowngrade(c: Controller, images: seq<Image>, k: nat)
    requires Newer(c, images, k)
    ensures Select(c, images).found && Newer(c, images, Select(c, images).id)
  {
    SelectionExact(c, images);
  }

  /** With nothing forced, the choice is the true maximum: the earliest of the highest upgrades. */
  lemma UnforcedMaximum(c: Controller, images: seq<Image>, k: nat)
    requires forall j :: 0 <= j < |images| ==> !images[j].forceUpdate
    requires Newer(c, images, k)
    ensures var s := Select(c, images);
            s.found && Newer(c, images, s.id) && !Higher(images[s.id].software, images[k].software)
            && (k < s.id ==> Higher(images[k].software, images[s.id].software))
  {
    SelectionExact(c, images);
    assert Contender(c, images, k);
  }

  /** The choice is as high as every upgrade in the table. */
  ghost predicate HighestWins(c: Controller, images: seq<Image>) {
    forall k: nat :: Newer(c, images, k) ==> !Higher(Select(c, images).version, images[k].software)
  }

  /** A forced upgrade behind an earlier upgrade is passed over by the loop. */
  ghost predicate PassedOver(c: Controller, images: seq<Image>, k: nat) {
    Newer(c, images, k) && images[k].forceUpdate && exists j: nat :: j < k && Newer(c, images, j)
  }

  ghost predicate Outbid(c: Controller, images: seq<Image>, k: nat)
    requires k < |images|
  {
    exists j: nat :: Contender(c, images, j) && !Higher(images[j].software, images[k].software)
  }

  /** The highest version wins exactly when every forced upgrade standing behind another upgrade is
      matched by an upgrade that is first in the table or not forced. */
  lemma HighestWinsExactly(c: Controller, images: seq<Image>)
    ensures HighestWins(c, images) <==> forall k: nat :: PassedOver(c, images, k) ==> Outbid(c, images, k)
  {
    SelectionExact(c, images);
    var s := Select(c, images);
    forall k: nat | Newer(c, images, k)
      ensures Contender(c, images, k) || PassedOver(c, images, k)
    {}
    if HighestWins(c, images) {
      forall k: nat | PassedOver(c, images, k) ensures Outbid(c, images, k) {
        assert Contender(c, images, s.id);
      }
    }
  }

  /** "Highest version wins" fails: a plain upgrade to 2.0.0.0 ahead of a forced upgrade to 3.0.0.0 is chosen. */
  lemma HighestDoesNotAlwaysWin(c: Controller, plain: Image, forced: Image)
    requires Compatible(c, plain) && Compatible(c, forced) && !plain.forceUpdate && forced.forceUpdate
    requires c.software == SoftwareVersion(1, 0, 0, 0)
    requires plain.software == SoftwareVersion(2, 0, 0, 0) && forced.software == SoftwareVersion(3, 0, 0, 0)
    ensures Select(c, [plain, forced]).version == plain.software
    ensures !HighestWins(c, [plain, forced])
  {
    var images := [plain, forced];
    assert images[..1] == [plain] && [plain][..0] == [];
    assert Select(c, [plain]) == Choice(true, 0, plain.software, false);
    assert Newer(c, images, 1);
  }
}
