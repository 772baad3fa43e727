/** The preallocated shadow framebuffer of scaled routes, and why every accepted state fits it. */
module Shadow {
  import opened Arithmetic
  import opened Wire
  import opened Modes
  import opened Protocol

  datatype ShadowRasterIdentity = ShadowRasterIdentity(width: u32, height: u32, format: u8)

  datatype ShadowActivation = Preserved | Zeroed

  function ShadowIdentity(snapshot: DisplayStateSnapshot): ShadowRasterIdentity {
    ShadowRasterIdentity(snapshot.mode.hdisplay, snapshot.mode.vdisplay, snapshot.format)
  }

  /** Bytes a raster needs, or None for an unsupported format or a 64-bit overflow. */
  function RasterBytes(identity: ShadowRasterIdentity): (bytes: Option<u64>) {
    var bpp := BytesPerPixel(identity.format);
    if bpp.None? then None
    else
      Monotone(0, identity.width, bpp.value);
      var pitch: nat := identity.width * bpp.value;
      Monotone(0, pitch, identity.height);
      if pitch < TWO_TO_THE_64 && pitch * identity.height < TWO_TO_THE_64 then Some(pitch * identity.height) else None
  }

  /** The bytes of a raster are those of its pixels. */
  lemma RasterBytesExactly(identity: ShadowRasterIdentity)
    ensures var bpp := if identity.format == 0x40 then 2 else if identity.format == 0x50 then 3
                       else if identity.format == 0x80 then 4 else 0;
      if bpp > 0 && identity.width * bpp * identity.height < 0x1_0000_0000_0000_0000
      then RasterBytes(identity) == Some(identity.width * bpp * identity.height)
      else RasterBytes(identity).None?
  {
    var bpp := BytesPerPixel(identity.format);
    if bpp.Some? {
      Monotone(identity.width, TWO_TO_THE_32, bpp.value);
      Monotone(0, identity.width, bpp.value);
    }
  }

  class ShadowFramebuffer {
    const capacity: u64
    const pixels: array<u8>
    var width: u32
    var height: u32
    var pitch: nat
    var identity: Option<ShadowRasterIdentity>
    var contentValid: bool

    constructor Preallocated(capacity: u64)
      requires capacity > 0
      ensures this.capacity == capacity == pixels.Length && fresh(pixels)
      ensures identity.None? && !contentValid
      ensures forall i :: 0 <= i < capacity ==> pixels[i] == 0
    {
      this.capacity := capacity;
      pixels := new u8[capacity](_ => 0);
      width, height, pitch, identity, contentValid := 0, 0, 0, None, false;
    }

    predicate IsActive(id: ShadowRasterIdentity)
      reads `identity, `contentValid
    {
      identity == Some(id) && contentValid
    }

    /** Another raster, or content that was given up, starts black; the same valid raster keeps its content. */
    method ActivateScaled(id: ShadowRasterIdentity) returns (activation: Option<ShadowActivation>)
      requires capacity == pixels.Length
      modifies this, pixels
      ensures var bytes := RasterBytes(id);
        activation == if bytes.None? || bytes.value > capacity then None
                      else if old(IsActive(id)) then Some(Preserved) else Some(Zeroed)
      ensures activation == Some(Preserved) <==> activation.Some? && old(identity) == Some(id) && old(contentValid)
      ensures activation.None? ==> pixels[..] == old(pixels[..]) && identity == old(identity) && contentValid == old(contentValid)
      ensures activation.Some? ==> IsActive(id) && width == id.width && height == id.height
      ensures activation.Some? ==>
        && (id.format == 0x40 ==> pitch == 2 * width) && (id.format == 0x50 ==> pitch == 3 * width)
        && (id.format == 0x80 ==> pitch == 4 * width) && id.format in {0x40, 0x50, 0x80}
      ensures activation == Some(Preserved) ==> pixels[..] == old(pixels[..])
      ensures activation == Some(Zeroed) ==>
        forall i :: 0 <= i < capacity ==> pixels[i] == if i < RasterBytes(id).value then 0 else old(pixels[i])
    {
      var bytes := RasterBytes(id);
      if bytes.None? || bytes.value > capacity { return None; }
      width, height := id.width, id.height;
      Monotone(0, id.width, BytesPerPixel(id.format).value);
      pitch := id.width * BytesPerPixel(id.format).value;
      var preserve := IsActive(id);
      identity, contentValid := Some(id), true;
      if preserve { return Some(Preserved); }
      Clear(bytes.value);
      return Some(Zeroed);
    }

    method Clear(length: u64)
      requires length <= capacity == pixels.Length
      modifies pixels
      ensures forall i :: 0 <= i < capacity ==> pixels[i] == if i < length then 0 else old(pixels[i])
    {
      for i := 0 to length
        invariant forall j :: 0 <= j < capacity ==> pixels[j] == if j < i then 0 else old(pixels[j])
      {
        pixels[i] := 0;
      }
    }

    method InvalidateContent()
      modifies `contentValid
      ensures !contentValid
    {
      contentValid := false;
    }
  }

  // ---------- capacity ----------

  /** 16-bit sizes cannot overflow 64 bits. */
  lemma FrameFits(w: nat, h: nat, bpp: nat)
    requires w < 0x1_0000 && h < 0x1_0000 && bpp <= 4
    ensures 0 <= w * bpp < TWO_TO_THE_64 && 0 <= w * h * bpp < TWO_TO_THE_64 && w * bpp * h == w * h * bpp
  {
    Monotone(w, 0x1_0000, h);
    Monotone(0, w, h);
    Monotone(0, w, bpp);
    Monotone(w, 0x1_0000, bpp);
    Monotone(0, w * h, bpp);
    Monotone(w * h, 0x1_0000 * 0x1_0000, bpp);
    Commutes(bpp, h);
  }

  /** Bytes of one frame of a mode. */
  function ModeBytes(mode: DisplayMode, bpp: nat): (bytes: u64)
    requires bpp <= 4
  {
    FrameFits(mode.hdisplay, mode.vdisplay, bpp);
    mode.hdisplay * mode.vdisplay * bpp
  }

  /** The largest frame of all advertised modes. */
  function MaxShadowBytes(modes: seq<DisplayMode>, bpp: nat): (bytes: u64)
    requires bpp <= 4
  {
    if modes == [] then 0
    else
      var rest, last := MaxShadowBytes(modes[..|modes| - 1], bpp), ModeBytes(modes[|modes| - 1], bpp);
      if last > rest then last else rest
  }

  lemma {:induction false} MaxShadowBytesCover(modes: seq<DisplayMode>, bpp: nat, i: nat)
    requires bpp <= 4 && i < |modes|
    ensures ModeBytes(modes[i], bpp) == modes[i].hdisplay * modes[i].vdisplay * bpp <= MaxShadowBytes(modes, bpp)
  {
    if i < |modes| - 1 { MaxShadowBytesCover(modes[..|modes| - 1], bpp, i); }
  }

  /** It is not larger than it has to be. */
  lemma {:induction false} MaxShadowBytesReached(modes: seq<DisplayMode>, bpp: nat) returns (i: nat)
    requires bpp <= 4 && modes != []
    ensures i < |modes| && MaxShadowBytes(modes, bpp) == ModeBytes(modes[i], bpp)
  {
    var last := |modes| - 1;
    if last > 0 && MaxShadowBytes(modes[..last], bpp) >= ModeBytes(modes[last], bpp) {
      i := MaxShadowBytesReached(modes[..last], bpp);
    } else {
      i := last;
    }
  }

  /** What the gadget checks states against: one connector, one format and the modes of the catalog. */
  function CatalogValidation(catalog: RouteCatalog, format: u8): Validation {
    Validation(1, [format], catalog.AdvertisedModes())
  }

  /** Every advertised mode can be checked. */
  lemma AdvertisedIsAccepted(catalog: RouteCatalog, format: u8, i: nat)
    requires i < |catalog.entries|
    ensures CatalogValidation(catalog, format).Accepts(StateRequest(catalog.entries[i].advertisedMode, format, 0))
  {
    assert SameUserTiming(catalog.AdvertisedModes()[i], catalog.entries[i].advertisedMode);
  }

  lemma SameTimingSameKey(left: DisplayMode, right: DisplayMode, connector: u8)
    ensures SameUserTiming(left, right) <==> KeyOf(connector, left) == KeyOf(connector, right)
  {}

  lemma FrameBytes(snapshot: DisplayStateSnapshot, mode: DisplayMode, bpp: nat)
    requires BytesPerPixel(snapshot.format) == Some(bpp) && SameUserTiming(mode, snapshot.mode)
    ensures RasterBytes(ShadowIdentity(snapshot)) == Some(ModeBytes(mode, bpp))
  {
    FrameFits(mode.hdisplay, mode.vdisplay, bpp);
  }

  /** A state accepted by SET_STATE_CHECK is in the catalog, and its frame fits the preallocated shadow. */
  lemma AcceptedStateIsServed(catalog: RouteCatalog, offered: seq<CatalogEntry>, preferred: ModeKey,
                              format: u8, snapshot: DisplayStateSnapshot)
    requires Faithful(catalog, offered, preferred) && catalog.connector == 0 && BytesPerPixel(format).Some?
    requires CatalogValidation(catalog, format).Admits(snapshot)
    ensures snapshot.connector == 0 && snapshot.format == format
    ensures catalog.EntryForKey(snapshot.Key()).Some?
    ensures RasterBytes(ShadowIdentity(snapshot)).Some?
    ensures RasterBytes(ShadowIdentity(snapshot)).value
         <= MaxShadowBytes(catalog.AdvertisedModes(), BytesPerPixel(format).value)
  {
    var modes, bpp := catalog.AdvertisedModes(), BytesPerPixel(format).value;
    var i :| 0 <= i < |modes| && SameUserTiming(modes[i], snapshot.mode);
    SameTimingSameKey(modes[i], snapshot.mode, 0);
    assert catalog.entries[i].key == snapshot.Key();
    FrameBytes(snapshot, modes[i], bpp);
    MaxShadowBytesCover(modes, bpp, i);
  }
}
