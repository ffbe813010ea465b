/** The image resizer's target-size state: the size an image will be redrawn at, the
    intrinsic size of the loaded image, and the aspect-ratio lock that ties the two sides. */
module ImageResizer {
  import opened Wrappers
  import opened Strings

  datatype Dimensions = Dimensions(width: int, height: int)

  datatype Side = Width | Height

  datatype Preset = Preset(name: string, width: int, height: int)

  /** The selected file as far as the tool looks at it: its name and its MIME type. */
  datatype FileInfo = FileInfo(name: string, mimeType: string)

  /** The common sizes offered as one-click presets. */
  const Presets: seq<Preset> := [
    Preset("Instagram Post", 1080, 1080),
    Preset("Twitter Post", 1200, 675),
    Preset("Facebook Cover", 851, 315),
    Preset("LinkedIn Cover", 1584, 396)
  ]

  /** The size the tool shows before any image is loaded. */
  const DefaultDimensions := Dimensions(800, 600)

  predicate IsImageType(mimeType: string) {
    StartsWith(mimeType, "image/")
  }

  /** Every preset is a positive size, never higher than it is wide. */
  lemma PresetsArePositiveLandscape()
    ensures forall p :: p in Presets ==> 0 < p.height <= p.width
  {
  }

  /** A file is accepted exactly when its type is `image/` followed by some subtype. */
  lemma {:induction false} ImageTypeIsImageSlash(mimeType: string)
    ensures IsImageType(mimeType) <==> exists sub :: mimeType == "image/" + sub
  {
    if IsImageType(mimeType) {
      assert mimeType == "image/" + mimeType[6..];
    }
  }

  /** `Math.round(p / q)` on the exact quotient: the integer nearest to `p / q`, halves
      rounded up (towards positive infinity, as `Math.round` does for negative halves too). */
  function RoundHalfUp(p: int, q: int): (r: int)
    requires q > 0
    ensures q * (2 * r - 1) <= 2 * p < q * (2 * r + 1)
  {
    (2 * p + q) / (2 * q)
  }

  /** The bracket pins the result down: no other integer is within half of `p / q` in the
      same way. */
  lemma {:induction false} RoundHalfUpUnique(p: int, q: int, r: int)
    requires q > 0
    requires q * (2 * r - 1) <= 2 * p < q * (2 * r + 1)
    ensures r == RoundHalfUp(p, q)
  {
    var s := RoundHalfUp(p, q);
    ScaledLess(q, 2 * r - 1, 2 * s + 1);
    ScaledLess(q, 2 * s - 1, 2 * r + 1);
  }

  /** Scaling by a positive factor keeps a strict order. */
  lemma ScaledLess(q: int, a: int, b: int)
    requires q > 0 && q * a < q * b
    ensures a < b
  {
  }

  /** An exact quotient is not moved by rounding. */
  lemma {:induction false} RoundHalfUpExact(k: int, q: int)
    requires q > 0
    ensures RoundHalfUp(k * q, q) == k
  {
    assert q * (2 * k - 1) <= 2 * (k * q) < q * (2 * k + 1);
    RoundHalfUpUnique(k * q, q, k);
  }

  /** A larger numerator never rounds to a smaller integer. */
  lemma {:induction false} RoundHalfUpMonotone(p1: int, p2: int, q: int)
    requires q > 0 && p1 <= p2
    ensures RoundHalfUp(p1, q) <= RoundHalfUp(p2, q)
  {
    var r1, r2 := RoundHalfUp(p1, q), RoundHalfUp(p2, q);
    ScaledLess(q, 2 * r1 - 1, 2 * r2 + 1);
  }

  /** The size after the user types `value` into the `side` input. With no image loaded
      nothing changes. Unlocked, only that side changes. Locked, the other side is the
      value scaled by the original aspect ratio and rounded to the nearest integer. */
  function ChangedDimensions(current: Dimensions, original: Option<Dimensions>, locked: bool,
                             side: Side, value: int): (r: Dimensions)
    requires original.Some? ==> original.value.width > 0 && original.value.height > 0
    ensures original.None? ==> r == current
    ensures original.Some? && side == Width ==> r.width == value
    ensures original.Some? && side == Height ==> r.height == value
    ensures original.Some? && !locked && side == Width ==> r.height == current.height
    ensures original.Some? && !locked && side == Height ==> r.width == current.width
    ensures original.Some? && locked && side == Width ==>
              var o := original.value;
              o.width * (2 * r.height - 1) <= 2 * (value * o.height) < o.width * (2 * r.height + 1)
    ensures original.Some? && locked && side == Height ==>
              var o := original.value;
              o.height * (2 * r.width - 1) <= 2 * (value * o.width) < o.height * (2 * r.width + 1)
  {
    match original
    case None => current
    case Some(o) =>
      if locked then
        match side
        case Width => Dimensions(value, RoundHalfUp(value * o.height, o.width))
        case Height => Dimensions(RoundHalfUp(value * o.width, o.height), value)
      else
        match side
        case Width => current.(width := value)
        case Height => current.(height := value)
  }

  /** Locked, typing back the original width restores the original height, and the other
      way round. */
  lemma {:induction false} LockedOriginalSideRestoresOriginal(current: Dimensions, o: Dimensions, side: Side)
    requires o.width > 0 && o.height > 0
    ensures ChangedDimensions(current, Some(o), true, side, if side == Width then o.width else o.height) == o
  {
    if side == Width {
      RoundHalfUpExact(o.height, o.width);
      assert o.width * o.height == o.height * o.width;
    } else {
      RoundHalfUpExact(o.width, o.height);
      assert o.height * o.width == o.width * o.height;
    }
  }

  /** Locked, a whole multiple of an original side scales the other side by the same factor
      with no rounding. */
  lemma {:induction false} LockedMultipleScalesExactly(current: Dimensions, o: Dimensions, side: Side, k: int)
    requires o.width > 0 && o.height > 0
    ensures side == Width ==>
              ChangedDimensions(current, Some(o), true, Width, k * o.width) == Dimensions(k * o.width, k * o.height)
    ensures side == Height ==>
              ChangedDimensions(current, Some(o), true, Height, k * o.height) == Dimensions(k * o.width, k * o.height)
  {
    if side == Width {
      assert k * o.width * o.height == (k * o.height) * o.width;
      RoundHalfUpExact(k * o.height, o.width);
    } else {
      assert k * o.height * o.width == (k * o.width) * o.height;
      RoundHalfUpExact(k * o.width, o.height);
    }
  }

  /** Locked, a larger value on one side never gives a smaller other side. */
  lemma {:induction false} LockedMonotone(current: Dimensions, o: Dimensions, side: Side, v1: int, v2: int)
    requires o.width > 0 && o.height > 0 && v1 <= v2
    ensures side == Width ==>
              ChangedDimensions(current, Some(o), true, Width, v1).height
              <= ChangedDimensions(current, Some(o), true, Width, v2).height
    ensures side == Height ==>
              ChangedDimensions(current, Some(o), true, Height, v1).width
              <= ChangedDimensions(current, Some(o), true, Height, v2).width
  {
    if side == Width {
      assert v1 * o.height <= v2 * o.height;
      RoundHalfUpMonotone(v1 * o.height, v2 * o.height, o.width);
    } else {
      assert v1 * o.width <= v2 * o.width;
      RoundHalfUpMonotone(v1 * o.width, v2 * o.width, o.height);
    }
  }

  /** Unlocked edits of the two sides commute, and an unlocked edit of a side is undone by
      typing its previous value back. */
  lemma {:induction false} UnlockedEditsAreIndependent(current: Dimensions, o: Dimensions, w: int, h: int)
    requires o.width > 0 && o.height > 0
    ensures ChangedDimensions(ChangedDimensions(current, Some(o), false, Width, w), Some(o), false, Height, h)
            == Dimensions(w, h)
    ensures ChangedDimensions(ChangedDimensions(current, Some(o), false, Height, h), Some(o), false, Width, w)
            == Dimensions(w, h)
    ensures ChangedDimensions(ChangedDimensions(current, Some(o), false, Width, w), Some(o), false, Width, current.width)
            == current
  {
  }

  /** The state of the resizer component. */
  class ImageResizerTool {
    var selectedFile: Option<FileInfo>
    var preview: string
    var dimensions: Dimensions
    var maintainAspectRatio: bool
    var originalDimensions: Option<Dimensions>

    /** A loaded image has a positive size, so the aspect ratio is defined. */
    ghost predicate Valid()
      reads this
    {
      originalDimensions.Some? ==> originalDimensions.value.width > 0 && originalDimensions.value.height > 0
    }

    /** Nothing selected, an 800 by 600 target, the lock on and no image loaded. */
    constructor()
      ensures Valid()
      ensures selectedFile == None && preview == ""
      ensures dimensions == DefaultDimensions && maintainAspectRatio && originalDimensions == None
    {
      selectedFile := None;
      preview := "";
      dimensions := DefaultDimensions;
      maintainAspectRatio := true;
      originalDimensions := None;
    }

    /** `handleFileSelect`: a file whose MIME type starts with `image/` is kept and its
        reading starts (`accepted`); no file, or any other type, changes nothing. */
    method HandleFileSelect(file: Option<FileInfo>) returns (accepted: bool)
      modifies `selectedFile
      ensures accepted <==> file.Some? && IsImageType(file.value.mimeType)
      ensures selectedFile == if accepted then file else old(selectedFile)
    {
      accepted := file.Some? && IsImageType(file.value.mimeType);
      if accepted {
        selectedFile := file;
      }
    }

    /** The reader's completion: the data URL becomes the preview. */
    method OnReaderLoadEnd(dataUrl: string)
      modifies `preview
      ensures preview == dataUrl
    {
      preview := dataUrl;
    }

    /** The decoded image's load callback: both the original and the target size become the
        intrinsic size. */
    method OnImageLoad(width: int, height: int)
      requires width > 0 && height > 0
      modifies `originalDimensions, `dimensions
      ensures Valid()
      ensures originalDimensions == Some(Dimensions(width, height))
      ensures dimensions == Dimensions(width, height)
    {
      originalDimensions := Some(Dimensions(width, height));
      dimensions := Dimensions(width, height);
    }

    /** `handleDimensionChange`: the target size becomes the one `ChangedDimensions`
        describes; nothing else changes. */
    method HandleDimensionChange(side: Side, value: int)
      requires Valid()
      modifies `dimensions
      ensures Valid()
      ensures dimensions
              == ChangedDimensions(old(dimensions), originalDimensions, maintainAspectRatio, side, value)
    {
      if originalDimensions.None? {
        return;
      }
      var o := originalDimensions.value;
      if maintainAspectRatio {
        if side == Width {
          dimensions := Dimensions(value, RoundHalfUp(value * o.height, o.width));
        } else {
          dimensions := Dimensions(RoundHalfUp(value * o.width, o.height), value);
        }
      } else {
        if side == Width {
          dimensions := dimensions.(width := value);
        } else {
          dimensions := dimensions.(height := value);
        }
      }
    }

    /** `handlePresetSelect`: the target size becomes the preset's, whatever the lock and
        whether or not an image is loaded. */
    method HandlePresetSelect(preset: Preset)
      modifies `dimensions
      ensures dimensions == Dimensions(preset.width, preset.height)
    {
      dimensions := Dimensions(preset.width, preset.height);
    }

    /** The lock checkbox. */
    method SetMaintainAspectRatio(checked: bool)
      modifies `maintainAspectRatio
      ensures maintainAspectRatio == checked
    {
      maintainAspectRatio := checked;
    }
  }
}
