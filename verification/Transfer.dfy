/** Copying an uploaded rectangle into a raster. */
module Transfer {
  import opened Arithmetic
  import opened Wire
  import opened Bytes
  import opened Protocol

  /** Whether the copy is carried out, in 64-bit arithmetic. */
  predicate CopyFits(info: SetBuffer, payload: nat, length: nat, pitch: u64, bpp: u64) {
    && bpp > 0
    && info.width * bpp < TWO_TO_THE_64 && info.x * bpp < TWO_TO_THE_64
    && info.width * bpp * info.height < TWO_TO_THE_64 && info.width * bpp * info.height <= payload
    && info.x * bpp + info.width * bpp < TWO_TO_THE_64 && info.x * bpp + info.width * bpp <= pitch
    && (info.y + info.height) * pitch < TWO_TO_THE_64 && (info.y + info.height) * pitch <= length
  }

  /** No overflow decides: the copy is carried out exactly if the payload holds the rectangle, a row holds its part of it
      and the buffer holds its last row. */
  lemma CopyFitsExactly(info: SetBuffer, payload: nat, length: nat, pitch: u64, bpp: u64)
    requires payload < TWO_TO_THE_64 && length < TWO_TO_THE_64
    ensures CopyFits(info, payload, length, pitch, bpp) <==>
      && bpp > 0 && info.width * bpp * info.height <= payload
      && info.x * bpp + info.width * bpp <= pitch && (info.y + info.height) * pitch <= length
  {
    Monotone(0, info.x, bpp);
    Monotone(0, info.width, bpp);
  }

  /** The rows of the payload. */
  function PayloadRows(payload: seq<u8>, line: nat, count: nat): (rows: seq<seq<u8>>)
    requires Start(0, line, count) <= |payload|
    ensures |rows| == count && Uniform(rows, line)
  {
    if count == 0 then []
    else
      var from := Start(0, line, count - 1);
      PayloadRows(payload, line, count - 1) + [payload[from..from + line]]
  }

  lemma {:induction false} PayloadRowAt(payload: seq<u8>, line: nat, count: nat, k: nat, c: nat)
    requires Start(0, line, count) <= |payload| && k < count && c < line
    ensures Start(0, line, k) + line <= Start(0, line, count)
    ensures PayloadRows(payload, line, count)[k][c] == payload[Start(0, line, k) + c]
  {
    StartsBelow(0, line, k, count);
    if k < count - 1 { PayloadRowAt(payload, line, count - 1, k, c); }
  }

  /** First byte of the rectangle. */
  function Corner(info: SetBuffer, pitch: u64, bpp: u64): nat {
    Start(Start(0, bpp, info.x), pitch, info.y)
  }

  lemma CornerRow(info: SetBuffer, pitch: u64, bpp: u64, k: nat)
    ensures Start(Corner(info, pitch, bpp), pitch, k) == (info.y + k) * pitch + info.x * bpp
  {
    StartIsProduct(0, bpp, info.x);
    StartIsProduct(Start(0, bpp, info.x), pitch, info.y);
    StartIsProduct(Corner(info, pitch, bpp), pitch, k);
    Distributes(info.y, k, pitch);
  }

  lemma CopyRowInside(info: SetBuffer, payload: nat, length: nat, pitch: u64, bpp: u64, k: nat, line: nat)
    requires CopyFits(info, payload, length, pitch, bpp) && k < info.height && line == info.width * bpp
    ensures Start(Corner(info, pitch, bpp), pitch, k) + line <= (info.y + info.height) * pitch <= length
    ensures 0 <= (info.y + k) * pitch && line <= pitch
  {
    CornerRow(info, pitch, bpp, k);
    Below(info.y + k, info.y + info.height, pitch);
    Monotone(0, info.y + k, pitch);
    Monotone(0, info.x, bpp);
  }

  lemma PayloadLongEnough(info: SetBuffer, payload: nat, length: nat, pitch: u64, bpp: u64, line: nat, n: nat)
    requires CopyFits(info, payload, length, pitch, bpp) && n <= info.height && line == info.width * bpp
    ensures Start(0, line, n) <= payload
  {
    StartIsProduct(0, line, n);
    Monotone(n, info.height, line);
    Commutes(line, info.height);
  }

  lemma CopyPasteable(info: SetBuffer, payload: seq<u8>, length: nat, pitch: u64, bpp: u64, line: nat, n: nat)
    requires CopyFits(info, |payload|, length, pitch, bpp) && n <= info.height && line == info.width * bpp
    ensures Start(0, line, n) <= |payload|
    ensures Pasteable(length, pitch, Corner(info, pitch, bpp), PayloadRows(payload, line, n))
  {
    PayloadLongEnough(info, |payload|, length, pitch, bpp, line, n);
    forall k | 0 <= k < n
      ensures Start(Corner(info, pitch, bpp), pitch, k) + |PayloadRows(payload, line, n)[k]| <= length
    {
      CopyRowInside(info, |payload|, length, pitch, bpp, k, line);
    }
  }

  /** The raster with the rectangle written row by row. */
  function Copied(info: SetBuffer, payload: seq<u8>, fb: seq<u8>, pitch: u64, bpp: u64): (r: seq<u8>)
    requires CopyFits(info, |payload|, |fb|, pitch, bpp)
    ensures |r| == |fb|
  {
    var line: nat := info.width * bpp;
    CopyPasteable(info, payload, |fb|, pitch, bpp, line, info.height);
    Paste(fb, pitch, Corner(info, pitch, bpp), PayloadRows(payload, line, info.height))
  }

  lemma CopyNext(info: SetBuffer, payload: seq<u8>, fb: seq<u8>, pitch: u64, bpp: u64, line: nat, at: nat, k: nat, from: nat)
    requires CopyFits(info, |payload|, |fb|, pitch, bpp) && k < info.height && line == info.width * bpp
    requires at == Corner(info, pitch, bpp) && from == Start(0, line, k)
    ensures Start(0, line, k + 1) == from + line <= |payload|
    ensures Pasteable(|fb|, pitch, at, PayloadRows(payload, line, k))
    ensures Pasteable(|fb|, pitch, at, PayloadRows(payload, line, k + 1))
    ensures Start(at, pitch, k) + line <= |fb|
    ensures Paste(fb, pitch, at, PayloadRows(payload, line, k + 1))
         == Splice(Paste(fb, pitch, at, PayloadRows(payload, line, k)), Start(at, pitch, k), payload[from..from + line])
  {
    CopyPasteable(info, payload, |fb|, pitch, bpp, line, k + 1);
    assert PayloadRows(payload, line, k + 1) == PayloadRows(payload, line, k) + [payload[from..from + line]];
    PasteNext(fb, pitch, at, PayloadRows(payload, line, k), payload[from..from + line]);
  }

  /** The product and the sum for row `k` fit, and give where the row begins. */
  lemma RowOffsetFits(info: SetBuffer, payload: nat, length: nat, pitch: u64, bpp: u64, k: nat)
    requires CopyFits(info, payload, length, pitch, bpp) && k < info.height && length < TWO_TO_THE_64
    ensures 0 <= (info.y + k) * pitch && 0 <= info.x * bpp
    ensures (info.y + k) * pitch + info.x * bpp == Start(Corner(info, pitch, bpp), pitch, k) < TWO_TO_THE_64
  {
    CornerRow(info, pitch, bpp, k);
    CopyRowInside(info, payload, length, pitch, bpp, k, info.width * bpp);
    Monotone(0, info.x, bpp);
    Monotone(0, info.width, bpp);
  }

  /** Where row `k` of the rectangle begins; the checked products and sums of the loop never fail. */
  method RowOffset(info: SetBuffer, payload: nat, length: nat, pitch: u64, bpp: u64, k: nat) returns (offset: u64)
    requires CopyFits(info, payload, length, pitch, bpp) && k < info.height && length < TWO_TO_THE_64
    ensures offset == Start(Corner(info, pitch, bpp), pitch, k)
  {
    RowOffsetFits(info, payload, length, pitch, bpp, k);
    var row: u64 := (info.y + k) * pitch;
    offset := row + info.x * bpp;
  }

  /** The next row of the copy. */
  method CopyRow(info: SetBuffer, payload: seq<u8>, fb: array<u8>, pitch: u64, bpp: u64, line: u64, from: nat, k: nat,
                 ghost at: nat, ghost was: seq<u8>)
    requires fb.Length < TWO_TO_THE_64 && CopyFits(info, |payload|, fb.Length, pitch, bpp) && k < info.height
    requires at == Corner(info, pitch, bpp) && line == info.width * bpp && |was| == fb.Length
    requires from == Start(0, line, k) <= |payload| && Pasteable(|was|, pitch, at, PayloadRows(payload, line, k))
    requires fb[..] == Paste(was, pitch, at, PayloadRows(payload, line, k))
    modifies fb
    ensures Start(0, line, k + 1) == from + line <= |payload|
    ensures Pasteable(|was|, pitch, at, PayloadRows(payload, line, k + 1))
    ensures fb[..] == Paste(was, pitch, at, PayloadRows(payload, line, k + 1))
  {
    CopyNext(info, payload, was, pitch, bpp, line, at, k, from);
    var offset := RowOffset(info, |payload|, fb.Length, pitch, bpp, k);
    Store(fb, offset, payload[from..from + line]);
  }

  /** The copying loop. */
  method CopyRows(info: SetBuffer, payload: seq<u8>, fb: array<u8>, pitch: u64, bpp: u64, line: u64, ghost at: nat)
    requires fb.Length < TWO_TO_THE_64 && CopyFits(info, |payload|, fb.Length, pitch, bpp)
    requires at == Corner(info, pitch, bpp) && line == info.width * bpp
    modifies fb
    ensures fb[..] == Copied(info, payload, old(fb[..]), pitch, bpp)
  {
    ghost var was := fb[..];
    CopyPasteable(info, payload, |was|, pitch, bpp, line, 0);
    var from: nat := 0;
    for k := 0 to info.height
      invariant from == Start(0, line, k) <= |payload|
      invariant Pasteable(|was|, pitch, at, PayloadRows(payload, line, k))
      invariant fb[..] == Paste(was, pitch, at, PayloadRows(payload, line, k))
    {
      CopyRow(info, payload, fb, pitch, bpp, line, from, k, at, was);
      from := from + line;
    }
  }

  /** A copy that does not fit is refused and changes nothing. */
  method CopyBufferToFramebuffer(info: SetBuffer, payload: seq<u8>, fb: array<u8>, pitch: u64, bpp: u64)
    returns (ok: bool)
    requires fb.Length < TWO_TO_THE_64
    modifies fb
    ensures ok == CopyFits(info, |payload|, fb.Length, pitch, bpp)
    ensures fb[..] == if ok then Copied(info, payload, old(fb[..]), pitch, bpp) else old(fb[..])
  {
    if !CopyFits(info, |payload|, fb.Length, pitch, bpp) { return false; }
    CopyRows(info, payload, fb, pitch, bpp, info.width * bpp, Corner(info, pitch, bpp));
    ok := true;
  }

  /** Byte `c` of row `k` of the rectangle is byte `c` of row `k` of the payload. */
  lemma CopiedInside(info: SetBuffer, payload: seq<u8>, fb: seq<u8>, pitch: u64, bpp: u64,
                     k: nat, c: nat, i: nat, from: nat)
    requires CopyFits(info, |payload|, |fb|, pitch, bpp) && k < info.height && c < info.width * bpp
    requires i == (info.y + k) * pitch + info.x * bpp + c && from == k * (info.width * bpp) + c
    ensures i < |fb| && from < |payload| && Copied(info, payload, fb, pitch, bpp)[i] == payload[from]
  {
    var line: nat := info.width * bpp;
    var at := Corner(info, pitch, bpp);
    CopyPasteable(info, payload, |fb|, pitch, bpp, line, info.height);
    CopyRowInside(info, |payload|, |fb|, pitch, bpp, k, line);
    CornerRow(info, pitch, bpp, k);
    StartIsProduct(0, line, k);
    PayloadRowAt(payload, line, info.height, k, c);
    PasteInside(fb, pitch, at, PayloadRows(payload, line, info.height), line, k, c);
  }

  lemma RowMisses(info: SetBuffer, payload: nat, length: nat, pitch: u64, bpp: u64, k: nat, line: nat, y: nat, c: nat, i: nat)
    requires CopyFits(info, payload, length, pitch, bpp) && k < info.height && line == info.width * bpp
    requires i == y * pitch + c
    requires y >= info.y + info.height
          || (c < pitch && !(info.y <= y < info.y + info.height && info.x * bpp <= c < info.x * bpp + line))
    ensures var start := Start(Corner(info, pitch, bpp), pitch, k); !(start <= i < start + line)
  {
    CornerRow(info, pitch, bpp, k);
    if info.y + k < y { Below(info.y + k, y, pitch); }
    if y < info.y + k { Below(y, info.y + k, pitch); }
    Monotone(0, info.x, bpp);
  }

  /** Every byte outside the rectangle keeps its value. */
  lemma CopiedOutside(info: SetBuffer, payload: seq<u8>, fb: seq<u8>, pitch: u64, bpp: u64, y: nat, c: nat, i: nat)
    requires CopyFits(info, |payload|, |fb|, pitch, bpp) && i == y * pitch + c && i < |fb|
    requires y >= info.y + info.height
          || (c < pitch && !(info.y <= y < info.y + info.height && info.x * bpp <= c < info.x * bpp + info.width * bpp))
    ensures Copied(info, payload, fb, pitch, bpp)[i] == fb[i]
  {
    var line: nat := info.width * bpp;
    CopyPasteable(info, payload, |fb|, pitch, bpp, line, info.height);
    var at, rows := Corner(info, pitch, bpp), PayloadRows(payload, line, info.height);
    forall k | 0 <= k < info.height ensures !(Start(at, pitch, k) <= i < Start(at, pitch, k) + |rows[k]|) {
      RowMisses(info, |payload|, |fb|, pitch, bpp, k, line, y, c, i);
    }
    PasteOutside(fb, pitch, at, rows, i);
  }

  // ---------- an accepted upload ----------

  lemma FactorsFit(w: nat, h: nat, b: nat, product: nat)
    requires w > 0 && h > 0 && b >= 2 && w * h * b == product
    ensures 2 * w <= product && 2 * h <= product
  {
    Monotone(1, h, w);
    Commutes(h, w);
    Monotone(1, w, h);
    Monotone(2, b, w * h);
    Commutes(b, w * h);
  }

  /** The 32-bit sums of an accepted upload did not wrap: a width that wraps is too long for its 32-bit length. */
  lemma AcceptedIsContained(info: SetBuffer, state: DisplayStateSnapshot)
    requires BufferFits(info, state)
    ensures info.x + info.width <= state.mode.hdisplay && info.y + info.height <= state.mode.vdisplay
  {
    var bpp := BytesPerPixel(state.format).value;
    FactorsFit(info.width, info.height, bpp, info.length);
  }

  /**
   Exactly which uploads are accepted, in true integers: a rectangle inside the committed mode, with the length of its
   pixels, and either nothing else or LZ4 data of at most that length.
   */
  lemma AcceptedExactly(info: SetBuffer, state: DisplayStateSnapshot)
    ensures BufferFits(info, state) <==>
      var bpp := if state.format == 0x40 then 2 else if state.format == 0x50 then 3 else if state.format == 0x80 then 4 else 0;
      && bpp > 0 && info.width > 0 && info.height > 0
      && info.x + info.width <= state.mode.hdisplay && info.y + info.height <= state.mode.vdisplay
      && info.length == info.width * info.height * bpp
      && if info.compression == 0 then info.compressedLength == 0 || info.compressedLength == info.length
         else info.compression == 1 && 0 < info.compressedLength <= info.length
  {
    if BufferFits(info, state) { AcceptedIsContained(info, state); }
  }

  /** The read that an accepted upload asks for has at least one byte and at most those of its pixels: all of them, unless
      they are compressed. */
  lemma AcceptedSize(info: SetBuffer, state: DisplayStateSnapshot)
    requires BufferFits(info, state)
    ensures 0 < WireLength(info) <= info.length
    ensures WireLength(info) == if info.compression == 0 then info.length else info.compressedLength
    ensures info.compression == 0 ==>
      var bpp := if state.format == 0x40 then 2 else if state.format == 0x50 then 3 else 4;
      WireLength(info) == info.width * info.height * bpp
  {
    FactorsFit(info.width, info.height, BytesPerPixel(state.format).value, info.length);
  }

  /** A SET_BUFFER passes validation exactly if a state is committed, controller and display are on, and it fits. */
  lemma ValidatedExactly(protocol: ProtocolState, info: SetBuffer)
    ensures protocol.ValidateBufferRequest(info) <==>
      && protocol.committedState.Some? && protocol.controllerEnabled && protocol.displayEnabled
      && BufferFits(info, protocol.committedState.value)
  {}

  lemma Reorder(a: nat, b: nat, c: nat)
    ensures a * b * c == a * c * b
  {}

  lemma FitsByColumns(info: SetBuffer, hdisplay: nat, pitch: nat, bpp: nat)
    requires info.x + info.width <= hdisplay && hdisplay * bpp <= pitch
    ensures 0 <= info.x * bpp && 0 <= info.width * bpp && info.x * bpp + info.width * bpp <= pitch
  {
    Monotone(info.x + info.width, hdisplay, bpp);
    Distributes(info.x, info.width, bpp);
    Monotone(0, info.x, bpp);
    Monotone(0, info.width, bpp);
  }

  /** An accepted upload fits every raster that holds the committed mode. */
  lemma AcceptedFits(info: SetBuffer, state: DisplayStateSnapshot, length: nat, pitch: u64, bpp: u64)
    requires BufferFits(info, state) && BytesPerPixel(state.format) == Some(bpp)
    requires state.mode.hdisplay * bpp <= pitch && state.mode.vdisplay * pitch <= length < TWO_TO_THE_64
    ensures CopyFits(info, info.length, length, pitch, bpp)
  {
    AcceptedIsContained(info, state);
    FitsByColumns(info, state.mode.hdisplay, pitch, bpp);
    Monotone(info.y + info.height, state.mode.vdisplay, pitch);
    Reorder(info.width, bpp, info.height);
  }

  /** So the upload of an accepted SET_BUFFER never fails to be copied into such a raster. */
  method CopyAccepted(protocol: ProtocolState, info: SetBuffer, payload: seq<u8>, fb: array<u8>, pitch: u64, bpp: u64)
    returns (ok: bool)
    requires protocol.ValidateBufferRequest(info) && |payload| == info.length
    requires var state := protocol.committedState.value;
      && BytesPerPixel(state.format) == Some(bpp)
      && state.mode.hdisplay * bpp <= pitch && state.mode.vdisplay * pitch <= fb.Length < TWO_TO_THE_64
    modifies fb
    ensures ok && CopyFits(info, |payload|, fb.Length, pitch, bpp)
    ensures fb[..] == Copied(info, payload, old(fb[..]), pitch, bpp)
  {
    AcceptedFits(info, protocol.committedState.value, fb.Length, pitch, bpp);
    ok := CopyBufferToFramebuffer(info, payload, fb, pitch, bpp);
  }
}
