/** The frame validator: the fixed eight-byte header and the decision the
    relay takes on every buffer read from the source client. */
module Frame {
  import opened Wire
  import opened ChecksumAlgorithm

  /** Byte 0 of every valid header. */
  const MAGIC: byte := 0xCC

  /** Byte 1 when the checksum is not to be verified. */
  const OPTIONS_NONE: byte := 0x00

  /** Byte 1 when the checksum must be verified (bit 6 set). */
  const OPTIONS_CHECKSUM: byte := 0x40

  /** Why a received buffer is not broadcast. */
  datatype DropReason = ShortHeader | TooMuchData | BadMagic | BadOptions | BadPadding | BadChecksum

  /** The outcome of the header check: the relay's 0 / -1, with the
      distinct diagnostic of the -1 cases as the reason. */
  datatype HeaderCheck = HeaderOk | HeaderBad(reason: DropReason)

  /** What the relay does with one buffer read from the source. */
  datatype Verdict = Broadcast(message: seq<byte>) | Drop(reason: DropReason)

  /** The header's own constraints: the magic byte, one of the two legal
      option values, and two zero padding bytes. */
  predicate WellFormedHeader(h: seq<byte>)
    requires |h| >= HEADER_LENGTH
  {
    h[0] == MAGIC && (h[1] == OPTIONS_NONE || h[1] == OPTIONS_CHECKSUM) && h[6] == 0 && h[7] == 0
  }

  /** The header check: accepts exactly the well-formed headers; on a bad
      header it reports the first failing test, in the order magic, options,
      padding. Signedness of `char` does not matter: 0x00 and 0x40 compare
      alike either way, and the magic byte is compared unsigned. */
  function CheckHeader(h: seq<byte>): (r: HeaderCheck)
    requires |h| >= HEADER_LENGTH
    ensures r.HeaderOk? <==> WellFormedHeader(h)
    ensures r.HeaderBad? ==> r.reason in {BadMagic, BadOptions, BadPadding}
    ensures r == HeaderBad(BadMagic) <==> h[0] != MAGIC
    ensures r == HeaderBad(BadOptions) <==> h[0] == MAGIC && h[1] != OPTIONS_NONE && h[1] != OPTIONS_CHECKSUM
    ensures r == HeaderBad(BadPadding) <==>
              h[0] == MAGIC && (h[1] == OPTIONS_NONE || h[1] == OPTIONS_CHECKSUM) && (h[6] != 0 || h[7] != 0)
  {
    if h[0] != MAGIC then HeaderBad(BadMagic)
    else if h[1] != OPTIONS_CHECKSUM && h[1] != OPTIONS_NONE then HeaderBad(BadOptions)
    else if h[6] != 0 || h[7] != 0 then HeaderBad(BadPadding)
    else HeaderOk
  }

  /** The declared payload length, big-endian in bytes 2 and 3. */
  function DeclaredLength(buf: seq<byte>): uint16
    requires |buf| >= HEADER_LENGTH
  {
    ConcatTwoBytes(buf[2], buf[3])
  }

  /** The checksum field, big-endian in bytes 4 and 5. */
  function ChecksumField(buf: seq<byte>): uint16
    requires |buf| >= HEADER_LENGTH
  {
    ConcatTwoBytes(buf[4], buf[5])
  }

  /** When a buffer is relayed: it holds a whole header, no more payload
      than declared, a well-formed header, and either no checksum request or
      a checksum field equal to the checksum of the whole buffer. */
  predicate Acceptable(buf: seq<byte>)
  {
    && |buf| >= HEADER_LENGTH
    && |buf| - HEADER_LENGTH <= DeclaredLength(buf)
    && WellFormedHeader(buf)
    && (buf[1] == OPTIONS_NONE || Checksum(buf) == ChecksumField(buf))
  }

  /** The decision on a buffer of n > 0 received bytes. What is broadcast is
      exactly the buffer received; a short buffer, too much payload, a bad
      header and a failed checksum each have their own reason, and a payload
      shorter than declared is no reason to drop. */
  function Validate(buf: seq<byte>): (v: Verdict)
    ensures v.Broadcast? <==> Acceptable(buf)
    ensures v.Broadcast? ==> v.message == buf
    ensures v == Drop(ShortHeader) <==> |buf| < HEADER_LENGTH
    ensures v == Drop(TooMuchData) <==>
              |buf| >= HEADER_LENGTH && |buf| - HEADER_LENGTH > DeclaredLength(buf)
    ensures v == Drop(BadChecksum) <==>
              && |buf| >= HEADER_LENGTH && |buf| - HEADER_LENGTH <= DeclaredLength(buf)
              && WellFormedHeader(buf) && buf[1] == OPTIONS_CHECKSUM
              && Checksum(buf) != ChecksumField(buf)
    ensures v.Drop? && v.reason in {BadMagic, BadOptions, BadPadding} ==>
              |buf| >= HEADER_LENGTH && |buf| - HEADER_LENGTH <= DeclaredLength(buf)
              && CheckHeader(buf) == HeaderBad(v.reason)
  {
    if |buf| < HEADER_LENGTH then Drop(ShortHeader)
    else if |buf| - HEADER_LENGTH > DeclaredLength(buf) then Drop(TooMuchData)
    else
      match CheckHeader(buf)
      case HeaderBad(reason) => Drop(reason)
      case HeaderOk =>
        if (buf[1] == OPTIONS_CHECKSUM && Checksum(buf) == ChecksumField(buf)) || buf[1] == OPTIONS_NONE
        then Broadcast(buf)
        else Drop(BadChecksum)
  }

  /** The eight header bytes for given options, length and checksum. */
  function Header(options: byte, length: uint16, checksum: uint16): (h: seq<byte>)
    ensures |h| == HEADER_LENGTH
  {
    [MAGIC, options, HighByte(length), LowByte(length), HighByte(checksum), LowByte(checksum), 0, 0]
  }

  /** A frame as a well-behaved source client builds it: the header, with
      the checksum of the frame computed over any placeholder in bytes 4-5
      when a checksum is requested, followed by the payload. */
  function EncodeFrame(checked: bool, payload: seq<byte>): (f: seq<byte>)
    requires |payload| <= MAX_MSG_LENGTH - HEADER_LENGTH
    ensures |f| == HEADER_LENGTH + |payload| && f[HEADER_LENGTH..] == payload
  {
    var options := if checked then OPTIONS_CHECKSUM else OPTIONS_NONE;
    var draft := Header(options, |payload|, 0) + payload;
    Header(options, |payload|, if checked then Checksum(draft) else 0) + payload
  }

  /** Every frame a well-behaved client builds is relayed unchanged, and its
      header reads back the length and the checksum request it was built
      with. */
  lemma EncodeFrameRelayed(checked: bool, payload: seq<byte>)
    requires |payload| <= MAX_MSG_LENGTH - HEADER_LENGTH
    ensures Validate(EncodeFrame(checked, payload)) == Broadcast(EncodeFrame(checked, payload))
    ensures DeclaredLength(EncodeFrame(checked, payload)) == |payload|
    ensures EncodeFrame(checked, payload)[1] == OPTIONS_CHECKSUM <==> checked
  {
    var options := if checked then OPTIONS_CHECKSUM else OPTIONS_NONE;
    var draft := Header(options, |payload|, 0) + payload;
    var f := EncodeFrame(checked, payload);
    ConcatSplit(|payload|);
    assert DeclaredLength(f) == |payload|;
    if checked {
      ConcatSplit(Checksum(draft));
      assert ChecksumField(f) == Checksum(draft);
      ChecksumIgnoresField(draft, f);
    }
  }

  /** Under a checksum request, a relayed frame whose payload is changed in
      any one byte, the header left as it was, is dropped for its checksum. */
  lemma TamperedPayloadDropped(f: seq<byte>, j: nat, v: byte)
    requires Validate(f).Broadcast? && f[1] == OPTIONS_CHECKSUM
    requires HEADER_LENGTH <= j < |f| && v != f[j]
    ensures Validate(f[j := v]) == Drop(BadChecksum)
  {
    ChecksumDetectsChange(f, j, v);
    var g := f[j := v];
    assert g[..HEADER_LENGTH] == f[..HEADER_LENGTH];
    assert DeclaredLength(g) == DeclaredLength(f) && ChecksumField(g) == ChecksumField(f);
  }

  /** A frame without a checksum request that arrives cut short, with at
      least its header, is still relayed, exactly as received. */
  lemma TruncatedFrameRelayed(payload: seq<byte>, k: nat)
    requires |payload| <= MAX_MSG_LENGTH - HEADER_LENGTH
    requires HEADER_LENGTH <= k <= HEADER_LENGTH + |payload|
    ensures Validate(EncodeFrame(false, payload)[..k]) == Broadcast(EncodeFrame(false, payload)[..k])
  {
    var f := EncodeFrame(false, payload);
    EncodeFrameRelayed(false, payload);
    var g := f[..k];
    assert g[..HEADER_LENGTH] == f[..HEADER_LENGTH];
    assert DeclaredLength(g) == DeclaredLength(f) && g[1] == f[1];
  }
}
