/** Bounded text output: a line is counted, or as much of it as fits is copied into a buffer. */
module BoundedLines {
  import opened Words

  datatype RenderError = BufferTooSmall(requiredLen: u64)

  function Pow10(k: nat): (p: nat)
    ensures p > 0
  {
    if k == 0 then 1 else 10 * Pow10(k - 1)
  }

  lemma {:induction false} DecimalLength(n: nat, k: nat)
    requires n < Pow10(k) && k > 0
    ensures |Decimal(n)| <= k
  {
    if n >= 10 {
      assert k > 1;
      DecimalLength(n / 10, k - 1);
    }
  }

  lemma TwentyDigits()
    ensures U64 <= Pow10(20)
  {
    assert Pow10(5) == 100000;
    Pow10Add(5, 5);
    Pow10Add(10, 10);
  }

  lemma {:induction false} Pow10Add(j: nat, k: nat)
    ensures Pow10(j + k) == Pow10(j) * Pow10(k)
    decreases j
  {
    if j > 0 {
      Pow10Add(j - 1, k);
      Pow10Step(j);
      Pow10Step(j + k);
      hide Pow10;
      Associates(10, Pow10(j - 1), Pow10(k));
    }
  }

  lemma Pow10Step(k: nat)
    requires k > 0
    ensures Pow10(k) == 10 * Pow10(k - 1)
  {
  }

  /** Writes the digits of `value` from the right end of a local buffer of `width` places. */
  method DigitsOf(value: u64, width: nat) returns (digits: array<char>, cursor: nat)
    requires 0 < value && width >= 20
    ensures fresh(digits) && cursor <= digits.Length && digits[cursor..] == Decimal(value)
  {
    hide Decimal, Digit;
    digits := new char[width](i => '0');
    var n: nat := value;
    cursor := width;
    EnoughPlaces(value, width);
    while n != 0
      modifies digits
      invariant cursor <= width && n < Pow10(cursor)
      invariant Leading(n) + digits[cursor..] == Decimal(value)
    {
      ghost var before := digits[cursor..];
      LeadingStep(n);
      cursor := cursor - 1;
      digits[cursor] := Digit(n % 10);
      assert digits[cursor..] == [Digit(n % 10)] + before;
      n := n / 10;
    }
  }

  /** The digits of `n`, none for zero. */
  function Leading(n: nat): string { if n == 0 then "" else Decimal(n) }

  lemma LeadingStep(n: nat)
    requires n > 0
    ensures Leading(n) == Leading(n / 10) + [Digit(n % 10)]
  {
  }

  /** `copy_from_slice` at position `at`. */
  method CopyInto(buffer: array<char>, at: nat, value: string)
    requires at + |value| <= buffer.Length
    modifies buffer
    ensures buffer[..at + |value|] == old(buffer[..at]) + value
    ensures buffer[at + |value|..] == old(buffer[at..])[|value|..]
  {
    for i := 0 to |value|
      invariant buffer[..at + i] == old(buffer[..at]) + value[..i]
      invariant buffer[at + i..] == old(buffer[at..])[i..]
    {
      buffer[at + i] := value[i];
    }
  }

  /** Writes to `buffer`, or only counts if there is none. */
  class LineWriter {
    const buffer: array?<char>
    var required: u64
    var written: nat
    /** Everything pushed so far, and the buffer as it was found. */
    ghost var line: string
    ghost const found: seq<char>

    ghost predicate Valid()
      reads this, buffer
    {
      && required == SaturatingAdd(0, |line|)
      && (buffer == null ==> written == 0)
      && (buffer != null ==>
            && buffer.Length == |found| < U64 / 2
            && written == Min(buffer.Length, |line|)
            && buffer[..written] == line[..written]
            && buffer[written..] == found[written..])
    }

    constructor CountOnly()
      ensures Valid() && buffer == null && line == ""
    {
      buffer, required, written, line, found := null, 0, 0, "", [];
    }

    constructor WithBuffer(out: array<char>)
      requires out.Length < U64 / 2
      ensures Valid() && buffer == out && line == "" && found == out[..]
    {
      buffer, required, written, line, found := out, 0, 0, "", out[..];
    }

    method PushBytes(value: string)
      requires Valid()
      modifies this, buffer
      ensures Valid() && line == old(line) + value
    {
      required := SaturatingAdd(required, |value|);
      line := line + value;
      if buffer != null {
        var available := if buffer.Length < written then 0 else buffer.Length - written;
        var toCopy := Min(available, |value|);
        if toCopy != 0 {
          var end := written + toCopy;
          CopyInto(buffer, written, value[..toCopy]);
          assert buffer[end..] == found[written..][toCopy..] == found[end..];
          assert line[..end] == old(line) + value[..toCopy];
          written := end;
        }
      }
    }

    method PushByte(value: char)
      requires Valid()
      modifies this, buffer
      ensures Valid() && line == old(line) + [value]
    {
      PushBytes([value]);
    }

    method PushBool(value: bool)
      requires Valid()
      modifies this, buffer
      ensures Valid() && line == old(line) + Bit(value)
    {
      PushByte(if value then '1' else '0');
    }

    method PushDecimal(value: u64, width: nat)
      requires Valid() && width >= 20
      modifies this, buffer
      ensures Valid() && line == old(line) + Decimal(value)
    {
      if value == 0 {
        PushByte('0');
        return;
      }
      var digits, cursor := DigitsOf(value, width);
      PushBytes(digits[cursor..]);
    }

    /** Succeeds exactly if the whole line fitted. */
    method Finish() returns (r: Result<u64, RenderError>)
      requires Valid() && buffer != null
      ensures r == if |line| <= buffer.Length then Ok(|line|) else Err(BufferTooSmall(SaturatingAdd(0, |line|)))
    {
      if required > written {
        return Err(BufferTooSmall(required));
      }
      return Ok(required);
    }
  }

  function Bit(value: bool): string { if value then "1" else "0" }

  lemma EnoughPlaces(value: u64, width: nat)
    requires width >= 20
    ensures value < Pow10(width)
  {
    TwentyDigits();
    Pow10Add(20, width - 20);
    MulMonotone(1, Pow10(width - 20), Pow10(20));
  }

  /** What a bounded writer must leave: the prefix that fits, and nothing else touched. */
  predicate PrefixOf(line: string, before: seq<char>, after: seq<char>) {
    var k := Min(|before|, |line|);
    |after| == |before| && after[..k] == line[..k] && after[k..] == before[k..]
  }

  lemma WriterLeavesPrefix(writer: LineWriter)
    requires writer.Valid() && writer.buffer != null
    ensures PrefixOf(writer.line, writer.found, writer.buffer[..])
  {
    var b := writer.buffer;
    assert b[..][..writer.written] == b[..writer.written] && b[..][writer.written..] == b[writer.written..];
  }

  // ----- reading a line of labelled fields back

  /** A label of a field after the first: one bar, at its start. */
  predicate IsLabel(l: string) { l != "" && l[0] == '|' && '|' !in l[1..] }

  /** The last field of a line can be told from what precedes it, if no value contains a bar. */
  lemma LastField(p: string, l: string, v: string, p': string, v': string)
    requires IsLabel(l) && '|' !in v && '|' !in v' && p + l + v == p' + l + v'
    ensures p == p' && v == v'
  {
    assert l == ['|'] + l[1..];
    assert p + ['|'] + (l[1..] + v) == p + l + v == p' + l + v' == p' + ['|'] + (l[1..] + v');
    LastMark(p, '|', l[1..] + v, p', l[1..] + v');
    ConcatInjective(l[1..], v, l[1..], v');
  }

  /** The last mark of a text splits it in only one way. */
  lemma LastMark(x: string, c: char, y: string, x': string, y': string)
    requires c !in y && c !in y' && x + [c] + y == x' + [c] + y'
    ensures x == x' && y == y'
  {
    NoMarkAfter(x, c, y);
    NoMarkAfter(x', c, y');
    assert |x| == |x'|;
    ConcatInjective(x + [c], y, x' + [c], y');
    ConcatInjective(x, [c], x', [c]);
  }

  lemma NoMarkAfter(x: string, c: char, y: string)
    requires c !in y
    ensures var s := x + [c] + y; s[|x|] == c && forall i | |x| < i < |s| :: s[i] != c
  {
    var s := x + [c] + y;
    forall i | |x| < i < |s| ensures s[i] != c {
      assert s[i] == y[i - |x| - 1];
    }
  }

  lemma DecimalHasNo(n: nat, c: char)
    requires !IsDigit(c)
    ensures c !in Decimal(n)
  {
    DecimalReadsBack(n);
  }

  lemma DecimalInjective(m: nat, n: nat)
    requires Decimal(m) == Decimal(n)
    ensures m == n
  {
    DecimalReadsBack(m);
    DecimalReadsBack(n);
  }
}

/** The boot diagnostic line. */
module BootDiag {
  import opened Words
  import opened BoundedLines

  datatype SecureBootState = Unknown | Enabled | Disabled

  datatype LoaderPathClass = FirmwareEfi | WindowsBootManager | UnknownPath

  datatype PixelFormat = Rgb | Bgr | Bitmask | BltOnly | UnknownFormat

  datatype FramebufferObservation = FramebufferObservation(
    width: u32, height: u32, pixelFormat: PixelFormat, byteLen: u64, basePresent: bool, layoutVerified: bool)

  datatype BootObservations = BootObservations(
    uefi: bool, conOut: bool, bootServices: bool, gop: bool, framebuffer: FramebufferObservation,
    secureBoot: SecureBootState, loaderPath: LoaderPathClass)

  function SecureBootWire(s: SecureBootState): string {
    match s case Unknown => "unknown" case Enabled => "enabled" case Disabled => "disabled"
  }

  function LoaderWire(l: LoaderPathClass): string {
    match l
    case FirmwareEfi => "firmware-efi"
    case WindowsBootManager => "windows-bootmgr"
    case UnknownPath => "unknown"
  }

  function FormatWire(f: PixelFormat): string {
    match f
    case Rgb => "rgb"
    case Bgr => "bgr"
    case Bitmask => "bitmask"
    case BltOnly => "blt-only"
    case UnknownFormat => "unknown"
  }

  predicate HasDirectFramebuffer(o: BootObservations) {
    var fb := o.framebuffer;
    && o.gop
    && fb.width != 0 && fb.height != 0 && fb.byteLen != 0 && fb.basePresent && fb.layoutVerified
    && (fb.pixelFormat == Rgb || fb.pixelFormat == Bgr || fb.pixelFormat == Bitmask)
  }

  /** The wire code of the strongest readiness stage. */
  function StageWire(o: BootObservations): string {
    if !o.uefi then "no-uefi"
    else if HasDirectFramebuffer(o) then
      match (o.loaderPath, o.secureBoot)
      case (FirmwareEfi, Disabled) => "pre-driver-ready"
      case (FirmwareEfi, Unknown) => "metal-candidate"
      case (FirmwareEfi, Enabled) => "policy-guarded"
      case (WindowsBootManager, _) => "policy-guarded"
      case (UnknownPath, Enabled) => "policy-guarded"
      case (UnknownPath, _) => "framebuffer"
    else if o.gop then "graphics-output"
    else if o.bootServices then "boot-services"
    else if o.conOut then "uefi-console"
    else "uefi-table"
  }

  function Header(): string {
    "ASOBTDIAG|format=hbpish|evidence=MEASURED_BOOT|source=uefi|seat=unknown"
    + "|receipt=unsealed|tuple=boot:diag:early|stage="
  }

  function FbText(fb: FramebufferObservation): string {
    Decimal(fb.width) + ['x'] + Decimal(fb.height) + ['/'] + FormatWire(fb.pixelFormat) + ['/'] + Decimal(fb.byteLen)
  }

  function FlagFields(o: BootObservations): string {
    Header() + StageWire(o)
    + "|uefi=" + Bit(o.uefi)
    + "|conout=" + Bit(o.conOut)
    + "|bs=" + Bit(o.bootServices)
    + "|gop=" + Bit(o.gop)
  }

  function UpToFramebuffer(o: BootObservations): string {
    FlagFields(o)
    + "|fb=" + FbText(o.framebuffer)
    + "|fbbase=" + Bit(o.framebuffer.basePresent)
    + "|fblayout=" + Bit(o.framebuffer.layoutVerified)
  }

  function StatusLine(o: BootObservations): string {
    UpToFramebuffer(o)
    + "|sb=" + SecureBootWire(o.secureBoot)
    + "|loader=" + LoaderWire(o.loaderPath)
  }

  /** More surfaces observed never make the stage weaker, and a stage is reached only through those below it. */
  function StageRank(wire: string): nat {
    if wire == "no-uefi" then 0
    else if wire == "uefi-table" then 1
    else if wire == "uefi-console" then 2
    else if wire == "boot-services" then 3
    else if wire == "graphics-output" then 4
    else 5
  }

  /** The stage as the strongest surface observed. */
  lemma StageIsStrongestSurface(o: BootObservations)
    ensures StageWire(o) == "no-uefi" <==> !o.uefi
    ensures o.uefi ==>
              (StageRank(StageWire(o)) >= 5 <==>
               && o.gop && o.framebuffer.width > 0 && o.framebuffer.height > 0 && o.framebuffer.byteLen > 0
               && o.framebuffer.basePresent && o.framebuffer.layoutVerified
               && o.framebuffer.pixelFormat !in {BltOnly, UnknownFormat})
              && (StageRank(StageWire(o)) >= 4 <==> o.gop)
              && (StageRank(StageWire(o)) >= 3 <==> o.gop || o.bootServices)
              && (StageRank(StageWire(o)) >= 2 <==> o.gop || o.bootServices || o.conOut)
              && (StageWire(o) == "uefi-table" <==> !o.gop && !o.bootServices && !o.conOut)
  {
  }

  /** With a framebuffer, secure boot or a chain-loading path guards it, and only a firmware path is a metal one. */
  lemma GuardedIff(o: BootObservations)
    requires o.uefi && HasDirectFramebuffer(o)
    ensures StageWire(o) == "policy-guarded" <==> o.secureBoot == Enabled || o.loaderPath == WindowsBootManager
    ensures StageWire(o) == "pre-driver-ready" <==> o.loaderPath == FirmwareEfi && o.secureBoot == Disabled
    ensures StageWire(o) == "metal-candidate" <==> o.loaderPath == FirmwareEfi && o.secureBoot == Unknown
    ensures StageWire(o) == "framebuffer" <==> o.loaderPath == UnknownPath && o.secureBoot != Enabled
  {
  }

  lemma KnownNumbers()
    ensures Decimal(1920) == "1920" && Decimal(1080) == "1080" && Decimal(8294400) == "8294400" && Decimal(0) == "0"
  {
    assert Decimal(19) == "19" && Decimal(10) == "10" && Decimal(82) == "82";
    assert Decimal(829) == "829";
    assert Decimal(82944) == "82944";
  }

  /** A line that the original's tests expect, field by field. */
  lemma KnownLine()
    ensures var fb := FramebufferObservation(1920, 1080, Bgr, 8294400, true, true);
            StatusLine(BootObservations(true, true, true, true, fb, Disabled, FirmwareEfi))
            == "ASOBTDIAG|format=hbpish|evidence=MEASURED_BOOT|source=uefi|seat=unknown"
               + "|receipt=unsealed|tuple=boot:diag:early|stage=" + "pre-driver-ready"
               + "|uefi=" + "1" + "|conout=" + "1" + "|bs=" + "1" + "|gop=" + "1"
               + "|fb=" + ("1920" + "x" + "1080" + "/" + "bgr" + "/" + "8294400")
               + "|fbbase=" + "1" + "|fblayout=" + "1" + "|sb=" + "disabled" + "|loader=" + "firmware-efi"
  {
    KnownNumbers();
    hide Decimal;
    var fb := FramebufferObservation(1920, 1080, Bgr, 8294400, true, true);
    assert FbText(fb) == "1920" + "x" + "1080" + "/" + "bgr" + "/" + "8294400";
    hide FbText;
  }

  /** And one for a console without a framebuffer. */
  lemma KnownEmptyLine()
    ensures var fb := FramebufferObservation(0, 0, UnknownFormat, 0, false, false);
            StatusLine(BootObservations(true, false, false, true, fb, Unknown, UnknownPath))
            == "ASOBTDIAG|format=hbpish|evidence=MEASURED_BOOT|source=uefi|seat=unknown"
               + "|receipt=unsealed|tuple=boot:diag:early|stage=" + "graphics-output"
               + "|uefi=" + "1" + "|conout=" + "0" + "|bs=" + "0" + "|gop=" + "1"
               + "|fb=" + ("0" + "x" + "0" + "/" + "unknown" + "/" + "0")
               + "|fbbase=" + "0" + "|fblayout=" + "0" + "|sb=" + "unknown" + "|loader=" + "unknown"
  {
    KnownNumbers();
    hide Decimal;
    var fb := FramebufferObservation(0, 0, UnknownFormat, 0, false, false);
    assert FbText(fb) == "0" + "x" + "0" + "/" + "unknown" + "/" + "0";
    hide FbText;
  }

  method PushFramebuffer(writer: LineWriter, fb: FramebufferObservation)
    requires writer.Valid()
    modifies writer, writer.buffer
    ensures writer.Valid() && writer.line == old(writer.line) + FbText(fb)
  {
    hide Decimal, FormatWire;
    ghost var start := writer.line;
    writer.PushDecimal(fb.width, 39);
    writer.PushByte('x');
    writer.PushDecimal(fb.height, 39);
    writer.PushByte('/');
    writer.PushBytes(FormatWire(fb.pixelFormat));
    writer.PushByte('/');
    writer.PushDecimal(fb.byteLen, 39);
    assert writer.line == start + FbText(fb);
  }

  method PushFlags(o: BootObservations, writer: LineWriter)
    requires writer.Valid() && writer.line == ""
    modifies writer, writer.buffer
    ensures writer.Valid() && writer.line == FlagFields(o)
  {
    hide Header, StageWire, Bit, LineWriter.Valid;
    writer.PushBytes(Header());
    assert writer.line == Header();
    writer.PushBytes(StageWire(o));
    writer.PushBytes("|uefi=");
    writer.PushBool(o.uefi);
    writer.PushBytes("|conout=");
    writer.PushBool(o.conOut);
    writer.PushBytes("|bs=");
    writer.PushBool(o.bootServices);
    writer.PushBytes("|gop=");
    writer.PushBool(o.gop);
  }

  method RenderStatusLineInner(o: BootObservations, writer: LineWriter)
    requires writer.Valid() && writer.line == ""
    modifies writer, writer.buffer
    ensures writer.Valid() && writer.line == StatusLine(o)
  {
    hide FlagFields, FbText, SecureBootWire, LoaderWire, Bit, LineWriter.Valid;
    PushFlags(o, writer);
    writer.PushBytes("|fb=");
    PushFramebuffer(writer, o.framebuffer);
    writer.PushBytes("|fbbase=");
    writer.PushBool(o.framebuffer.basePresent);
    writer.PushBytes("|fblayout=");
    writer.PushBool(o.framebuffer.layoutVerified);
    writer.PushBytes("|sb=");
    writer.PushBytes(SecureBootWire(o.secureBoot));
    writer.PushBytes("|loader=");
    writer.PushBytes(LoaderWire(o.loaderPath));
  }

  method StatusLineLen(o: BootObservations) returns (n: u64)
    ensures n == |StatusLine(o)|
  {
    hide StatusLine;
    var writer := new LineWriter.CountOnly();
    RenderStatusLineInner(o, writer);
    StatusLineFits(o);
    assert writer.line == StatusLine(o);
    n := writer.required;
  }

  /** Leaves the prefix that fits, succeeds exactly if the line fits, and otherwise reports its length. */
  method RenderStatusLine(o: BootObservations, out: array<char>) returns (r: Result<u64, RenderError>)
    requires out.Length < U64 / 2
    modifies out
    ensures PrefixOf(StatusLine(o), old(out[..]), out[..]) && |StatusLine(o)| <= 384
    ensures r == if |StatusLine(o)| <= out.Length then Ok(|StatusLine(o)|) else Err(BufferTooSmall(|StatusLine(o)|))
  {
    hide StatusLine;
    var writer := new LineWriter.WithBuffer(out);
    RenderStatusLineInner(o, writer);
    StatusLineFits(o);
    assert writer.line == StatusLine(o);
    WriterLeavesPrefix(writer);
    r := writer.Finish();
  }

  lemma FbTextFits(fb: FramebufferObservation)
    ensures |FbText(fb)| <= 51
  {
    assert Pow10(5) == 100000;
    Pow10Add(5, 5);
    TwentyDigits();
    DecimalLength(fb.width, 10);
    DecimalLength(fb.height, 10);
    DecimalLength(fb.byteLen, 20);
    hide Decimal;
  }

  /** The loader's 384-byte buffer is always large enough. */
  lemma StatusLineFits(o: BootObservations)
    ensures |StatusLine(o)| <= 384
  {
    FbTextFits(o.framebuffer);
    FlagFieldsFit(o);
    hide FbText, FlagFields;
  }

  lemma FlagFieldsFit(o: BootObservations)
    ensures |FlagFields(o)| <= 180
  {
    HeaderLength();
    hide Header;
  }

  lemma HeaderLength()
    ensures |Header()| == 117
  {
  }

  // ----- reading it back

  lemma FbTextReadsBack(f: FramebufferObservation, g: FramebufferObservation)
    requires FbText(f) == FbText(g)
    ensures f.width == g.width && f.height == g.height && f.pixelFormat == g.pixelFormat && f.byteLen == g.byteLen
  {
    hide Decimal;
    DecimalHasNo(f.byteLen, '/');
    DecimalHasNo(g.byteLen, '/');
    var p, q := Decimal(f.width) + ['x'] + Decimal(f.height), Decimal(g.width) + ['x'] + Decimal(g.height);
    LastMark(p + ['/'] + FormatWire(f.pixelFormat), '/', Decimal(f.byteLen),
             q + ['/'] + FormatWire(g.pixelFormat), Decimal(g.byteLen));
    DecimalInjective(f.byteLen, g.byteLen);
    LastMark(p, '/', FormatWire(f.pixelFormat), q, FormatWire(g.pixelFormat));
    DecimalHasNo(f.height, 'x');
    DecimalHasNo(g.height, 'x');
    LastMark(Decimal(f.width), 'x', Decimal(f.height), Decimal(g.width), Decimal(g.height));
    DecimalInjective(f.height, g.height);
    DecimalInjective(f.width, g.width);
  }

  lemma FbTextHasNoBar(fb: FramebufferObservation)
    ensures '|' !in FbText(fb)
  {
    DecimalHasNo(fb.width, '|');
    DecimalHasNo(fb.height, '|');
    DecimalHasNo(fb.byteLen, '|');
    FormatHasNoBar(fb.pixelFormat);
    hide Decimal, FormatWire;
  }

  lemma FormatHasNoBar(f: PixelFormat)
    ensures '|' !in FormatWire(f)
  {
  }

  /** The line determines the observations: equal lines come from equal observations. */
  lemma StatusLineReadsBack(o: BootObservations, o': BootObservations)
    requires StatusLine(o) == StatusLine(o')
    ensures o == o'
  {
    var f, f' := o.framebuffer, o'.framebuffer;
    FbTextHasNoBar(f);
    FbTextHasNoBar(f');
    WiresHaveNoBar(o);
    WiresHaveNoBar(o');
    hide UpToFramebuffer, FlagFields, FbText, SecureBootWire, LoaderWire, Bit;
    var p, q := UpToFramebuffer(o), UpToFramebuffer(o');
    LastField(p + "|sb=" + SecureBootWire(o.secureBoot), "|loader=", LoaderWire(o.loaderPath),
              q + "|sb=" + SecureBootWire(o'.secureBoot), LoaderWire(o'.loaderPath));
    LastField(p, "|sb=", SecureBootWire(o.secureBoot), q, SecureBootWire(o'.secureBoot));
    FramebufferReadsBack(o, o');
    FbTextReadsBack(f, f');
    FlagsReadBack(o, o');
    WiresReadBack(o, o');
  }

  lemma FramebufferReadsBack(o: BootObservations, o': BootObservations)
    requires UpToFramebuffer(o) == UpToFramebuffer(o')
    ensures FlagFields(o) == FlagFields(o') && FbText(o.framebuffer) == FbText(o'.framebuffer)
    ensures Bit(o.framebuffer.basePresent) == Bit(o'.framebuffer.basePresent)
    ensures Bit(o.framebuffer.layoutVerified) == Bit(o'.framebuffer.layoutVerified)
  {
    var f, f' := o.framebuffer, o'.framebuffer;
    FbTextHasNoBar(f);
    FbTextHasNoBar(f');
    WiresHaveNoBar(o);
    hide FlagFields, FbText, Bit;
    var p1, q1 := FlagFields(o), FlagFields(o');
    var p2, q2 := p1 + "|fb=" + FbText(f), q1 + "|fb=" + FbText(f');
    var p3, q3 := p2 + "|fbbase=" + Bit(f.basePresent), q2 + "|fbbase=" + Bit(f'.basePresent);
    LastField(p3, "|fblayout=", Bit(f.layoutVerified), q3, Bit(f'.layoutVerified));
    LastField(p2, "|fbbase=", Bit(f.basePresent), q2, Bit(f'.basePresent));
    LastField(p1, "|fb=", FbText(f), q1, FbText(f'));
  }

  lemma FlagsReadBack(o: BootObservations, o': BootObservations)
    requires FlagFields(o) == FlagFields(o')
    ensures Bit(o.uefi) == Bit(o'.uefi) && Bit(o.conOut) == Bit(o'.conOut) && Bit(o.gop) == Bit(o'.gop)
    ensures Bit(o.bootServices) == Bit(o'.bootServices)
  {
    WiresHaveNoBar(o);
    hide Header, StageWire, Bit;
    var p1, q1 := Header() + StageWire(o), Header() + StageWire(o');
    var p2, q2 := p1 + "|uefi=" + Bit(o.uefi), q1 + "|uefi=" + Bit(o'.uefi);
    var p3, q3 := p2 + "|conout=" + Bit(o.conOut), q2 + "|conout=" + Bit(o'.conOut);
    var p4, q4 := p3 + "|bs=" + Bit(o.bootServices), q3 + "|bs=" + Bit(o'.bootServices);
    LastField(p4, "|gop=", Bit(o.gop), q4, Bit(o'.gop));
    LastField(p3, "|bs=", Bit(o.bootServices), q3, Bit(o'.bootServices));
    LastField(p2, "|conout=", Bit(o.conOut), q2, Bit(o'.conOut));
    LastField(p1, "|uefi=", Bit(o.uefi), q1, Bit(o'.uefi));
  }

  lemma WiresHaveNoBar(o: BootObservations)
    ensures '|' !in SecureBootWire(o.secureBoot) && '|' !in LoaderWire(o.loaderPath)
    ensures '|' !in Bit(true) && '|' !in Bit(false)
  {
  }

  lemma WiresReadBack(o: BootObservations, o': BootObservations)
    requires SecureBootWire(o.secureBoot) == SecureBootWire(o'.secureBoot)
    requires LoaderWire(o.loaderPath) == LoaderWire(o'.loaderPath)
    requires Bit(o.uefi) == Bit(o'.uefi) && Bit(o.conOut) == Bit(o'.conOut) && Bit(o.gop) == Bit(o'.gop)
    requires Bit(o.bootServices) == Bit(o'.bootServices)
    requires Bit(o.framebuffer.basePresent) == Bit(o'.framebuffer.basePresent)
    requires Bit(o.framebuffer.layoutVerified) == Bit(o'.framebuffer.layoutVerified)
    ensures o.secureBoot == o'.secureBoot && o.loaderPath == o'.loaderPath
    ensures o.uefi == o'.uefi && o.conOut == o'.conOut && o.gop == o'.gop && o.bootServices == o'.bootServices
    ensures o.framebuffer.basePresent == o'.framebuffer.basePresent
    ensures o.framebuffer.layoutVerified == o'.framebuffer.layoutVerified
  {
  }
}

/** The build-time identity line and its selector axes. */
module BootIdentityLine {
  import opened Words
  import opened BoundedLines

  datatype BootIdentity = BootIdentity(
    seat: string, devicePid: string, operatorPid: string, coOperatorPid: string, roomPid: string,
    glyph: string, cohort: string, hilbert: u32, tupleDim: u64, date: string, location: string)

  // ----- selector axes

  function Wrap16(x: int): u16 { x % U16 }

  function ByteOf(c: char): byte { c as int % 256 }

  function Seed(id: BootIdentity): string { if id.devicePid == "" then id.seat else id.devicePid }

  /** The mixing of three seed bytes and the index on 16 bits. */
  function Mix(a: int, b: int, c: int, index: nat): nat {
    Wrap16(Wrap16(Wrap16(Wrap16(a * 31) + Wrap16(b * 17)) + Wrap16(c * 7)) + Wrap16(Wrap16(index) * 19)) % 1024
  }

  /** The axis; its seed positions are computed on 64 bits. */
  function SelectorAxisU10(id: BootIdentity, index: u64): nat
    requires Seed(id) != ""
  {
    var seed := Seed(id);
    Mix(SeedByte(seed, index), SeedByte(seed, Wrap64(Wrap64(index * 7) + 3)),
        SeedByte(seed, Wrap64(Wrap64(index * 13) + 11)), index)
  }

  /** The seed byte at a position counted around. */
  function SeedByte(seed: string, position: nat): byte
    requires seed != ""
  {
    ByteOf(seed[position % |seed|])
  }

  lemma MixIsLinear(a: byte, b: byte, c: byte, index: nat)
    ensures Mix(a, b, c, index) == (31 * a as int + 17 * b as int + 7 * c as int + 19 * index) % 1024 < 1024
  {
    var abc: int := 31 * a as int + 17 * b as int + 7 * c as int;
    Wrap16Small(a * 31);
    Wrap16Small(b * 17);
    Wrap16Small(c * 7);
    Wrap16Small(a * 31 + b * 17);
    Wrap16Small(abc);
    WrapMod(abc, index);
    hide Wrap16;
  }

  lemma Wrap16Small(x: nat)
    requires x < U16
    ensures Wrap16(x) == x
  {
  }

  /** Only the positions can be affected by wrap-around: the mixing is exact modulo 1,024. */
  lemma AxisIsLinear(id: BootIdentity, index: u64)
    requires Seed(id) != ""
    ensures var seed := if id.devicePid == "" then id.seat else id.devicePid;
            SelectorAxisU10(id, index)
            == (31 * SeedByte(seed, index) as int
                + 17 * SeedByte(seed, Wrap64(index * 7 + 3)) as int
                + 7 * SeedByte(seed, Wrap64(index * 13 + 11)) as int
                + 19 * index) % 1024
    ensures SelectorAxisU10(id, index) < 1024
  {
    hide Mix, SeedByte;
    var seed := Seed(id);
    WrapInside(index * 7, 3);
    WrapInside(index * 13, 11);
    MixIsLinear(SeedByte(seed, index), SeedByte(seed, Wrap64(index * 7 + 3)),
                SeedByte(seed, Wrap64(index * 13 + 11)), index);
  }

  lemma WrapInside(x: nat, y: nat)
    ensures Wrap64(Wrap64(x) + y) == Wrap64(x + y)
  {
  }

  lemma WrapMod(x: nat, index: nat)
    ensures Wrap16(x + Wrap16(Wrap16(index) * 19)) % 1024 == (x + 19 * index) % 1024
  {
    var q0 := index / U16;
    var r0 := index % U16;
    var q1 := r0 * 19 / U16;
    var q2 := (x + Wrap16(r0 * 19)) / U16;
    assert x + 19 * index == Wrap16(x + Wrap16(r0 * 19)) + U16 * (19 * q0 + q1 + q2);
    DropMultiple(Wrap16(x + Wrap16(r0 * 19)), 64 * (19 * q0 + q1 + q2));
  }

  lemma DropMultiple(x: int, k: int)
    ensures (x + 1024 * k) % 1024 == x % 1024
  {
  }

  // ----- the line

  function AxesText(id: BootIdentity, n: nat): string
    requires n <= id.tupleDim && (n > 0 ==> Seed(id) != "")
  {
    if n == 0 then ""
    else AxesText(id, n - 1) + (if n > 1 then "," else "") + Decimal(SelectorAxisU10(id, n - 1))
  }

  function IdentityHeader(): string {
    "ASOBTID|format=hbpish|evidence=BUILD_TIME_DEVICE_CONTEXT|source=uefi|json=0"
  }

  function SeatFields(id: BootIdentity): string {
    IdentityHeader()
    + "|seat=" + id.seat
    + "|device_pid=" + id.devicePid
    + "|operator_pid=" + id.operatorPid
    + "|co_operator_pid=" + id.coOperatorPid
  }

  function RoomFields(id: BootIdentity): string {
    SeatFields(id)
    + "|room_pid=" + id.roomPid
    + "|glyph=" + id.glyph
    + "|cohort=" + id.cohort
    + "|hilbert=" + Decimal(id.hilbert)
  }

  function DateFields(id: BootIdentity): string {
    RoomFields(id)
    + "|tuple_dim=" + Decimal(id.tupleDim)
    + "|date=" + id.date
    + "|location=" + id.location
  }

  function IdentityLine(id: BootIdentity): string
    requires Rendered(id)
  {
    DateFields(id) + "|axes=" + AxesText(id, id.tupleDim)
  }

  /** The axes are defined unless some are asked for and both seat and device PID are empty. */
  predicate Rendered(id: BootIdentity) { id.tupleDim > 0 ==> Seed(id) != "" }

  method PushSeatFields(id: BootIdentity, writer: LineWriter)
    requires writer.Valid() && writer.line == ""
    modifies writer, writer.buffer
    ensures writer.Valid() && writer.line == SeatFields(id)
  {
    hide LineWriter.Valid, IdentityHeader;
    writer.PushBytes(IdentityHeader());
    assert writer.line == IdentityHeader();
    writer.PushBytes("|seat=");
    writer.PushBytes(id.seat);
    writer.PushBytes("|device_pid=");
    writer.PushBytes(id.devicePid);
    writer.PushBytes("|operator_pid=");
    writer.PushBytes(id.operatorPid);
    writer.PushBytes("|co_operator_pid=");
    writer.PushBytes(id.coOperatorPid);
  }

  method PushDateFields(id: BootIdentity, writer: LineWriter)
    requires writer.Valid() && writer.line == SeatFields(id)
    modifies writer, writer.buffer
    ensures writer.Valid() && writer.line == DateFields(id)
  {
    hide LineWriter.Valid, SeatFields, Decimal;
    writer.PushBytes("|room_pid=");
    writer.PushBytes(id.roomPid);
    writer.PushBytes("|glyph=");
    writer.PushBytes(id.glyph);
    writer.PushBytes("|cohort=");
    writer.PushBytes(id.cohort);
    writer.PushBytes("|hilbert=");
    writer.PushDecimal(id.hilbert, 20);
    writer.PushBytes("|tuple_dim=");
    writer.PushDecimal(id.tupleDim, 20);
    writer.PushBytes("|date=");
    writer.PushBytes(id.date);
    writer.PushBytes("|location=");
    writer.PushBytes(id.location);
  }

  method PushAxes(id: BootIdentity, writer: LineWriter)
    requires Rendered(id) && writer.Valid()
    modifies writer, writer.buffer
    ensures writer.Valid() && writer.line == old(writer.line) + AxesText(id, id.tupleDim)
  {
    hide LineWriter.Valid, Decimal, SelectorAxisU10;
    var i := 0;
    while i < id.tupleDim
      invariant writer.Valid() && i <= id.tupleDim && writer.line == old(writer.line) + AxesText(id, i)
    {
      ghost var before := writer.line;
      if i != 0 {
        writer.PushByte(',');
      }
      AxisIsLinear(id, i);
      writer.PushDecimal(SelectorAxisU10(id, i), 20);
      assert writer.line == before + ((if i > 0 then "," else "") + Decimal(SelectorAxisU10(id, i)));
      i := i + 1;
    }
  }

  method RenderBootIdentityLineInner(id: BootIdentity, writer: LineWriter)
    requires Rendered(id) && writer.Valid() && writer.line == ""
    modifies writer, writer.buffer
    ensures writer.Valid() && writer.line == IdentityLine(id)
  {
    hide LineWriter.Valid, DateFields, AxesText;
    PushSeatFields(id, writer);
    PushDateFields(id, writer);
    writer.PushBytes("|axes=");
    PushAxes(id, writer);
  }

  method BootIdentityLineLen(id: BootIdentity) returns (n: u64)
    requires Rendered(id)
    ensures n == SaturatingAdd(0, |IdentityLine(id)|)
  {
    hide IdentityLine;
    var writer := new LineWriter.CountOnly();
    RenderBootIdentityLineInner(id, writer);
    n := writer.required;
  }

  /** Leaves the prefix that fits, succeeds exactly if the line fits, and otherwise reports its length. */
  method RenderBootIdentityLine(id: BootIdentity, out: array<char>) returns (r: Result<u64, RenderError>)
    requires Rendered(id) && out.Length < U64 / 2
    modifies out
    ensures PrefixOf(IdentityLine(id), old(out[..]), out[..])
    ensures r == if |IdentityLine(id)| <= out.Length then Ok(|IdentityLine(id)|)
                 else Err(BufferTooSmall(SaturatingAdd(0, |IdentityLine(id)|)))
  {
    hide IdentityLine;
    var writer := new LineWriter.WithBuffer(out);
    RenderBootIdentityLineInner(id, writer);
    WriterLeavesPrefix(writer);
    r := writer.Finish();
  }

  // ----- reading it back

  predicate NoBars(id: BootIdentity) {
    && '|' !in id.seat && '|' !in id.devicePid && '|' !in id.operatorPid && '|' !in id.coOperatorPid
    && '|' !in id.roomPid && '|' !in id.glyph && '|' !in id.cohort && '|' !in id.date && '|' !in id.location
  }

  lemma {:induction false} AxesHaveNoBar(id: BootIdentity, n: nat)
    requires n <= id.tupleDim && (n > 0 ==> Seed(id) != "")
    ensures '|' !in AxesText(id, n)
  {
    if n > 0 {
      AxesHaveNoBar(id, n - 1);
      AxisIsLinear(id, n - 1);
      DecimalHasNo(SelectorAxisU10(id, n - 1), '|');
    }
  }

  /** If no field contains a bar, the line determines the identity. */
  lemma IdentityLineReadsBack(id: BootIdentity, id': BootIdentity)
    requires Rendered(id) && Rendered(id') && NoBars(id) && NoBars(id') && IdentityLine(id) == IdentityLine(id')
    ensures id == id'
  {
    AxesHaveNoBar(id, id.tupleDim);
    AxesHaveNoBar(id', id'.tupleDim);
    LabelAxes();
    hide DateFields, RoomFields, SeatFields, AxesText, NoBars, IsLabel;
    LastField(DateFields(id), "|axes=", AxesText(id, id.tupleDim), DateFields(id'), AxesText(id', id'.tupleDim));
    DateReadsBack(id, id');
    RoomReadsBack(id, id');
    SeatReadsBack(id, id');
  }

  lemma LabelAxes()
    ensures IsLabel("|axes=")
  {
  }

  lemma DateReadsBack(id: BootIdentity, id': BootIdentity)
    requires NoBars(id) && NoBars(id') && DateFields(id) == DateFields(id')
    ensures RoomFields(id) == RoomFields(id')
    ensures id.tupleDim == id'.tupleDim && id.date == id'.date && id.location == id'.location
  {
    DecimalHasNo(id.tupleDim, '|');
    DecimalHasNo(id'.tupleDim, '|');
    hide RoomFields, Decimal;
    var p1, q1 := RoomFields(id), RoomFields(id');
    var p2, q2 := p1 + "|tuple_dim=" + Decimal(id.tupleDim), q1 + "|tuple_dim=" + Decimal(id'.tupleDim);
    var p3, q3 := p2 + "|date=" + id.date, q2 + "|date=" + id'.date;
    LastField(p3, "|location=", id.location, q3, id'.location);
    LastField(p2, "|date=", id.date, q2, id'.date);
    LastField(p1, "|tuple_dim=", Decimal(id.tupleDim), q1, Decimal(id'.tupleDim));
    DecimalInjective(id.tupleDim, id'.tupleDim);
  }

  lemma RoomReadsBack(id: BootIdentity, id': BootIdentity)
    requires NoBars(id) && NoBars(id') && RoomFields(id) == RoomFields(id')
    ensures SeatFields(id) == SeatFields(id')
    ensures id.roomPid == id'.roomPid && id.glyph == id'.glyph && id.cohort == id'.cohort && id.hilbert == id'.hilbert
  {
    DecimalHasNo(id.hilbert, '|');
    DecimalHasNo(id'.hilbert, '|');
    hide SeatFields, Decimal;
    var p1, q1 := SeatFields(id), SeatFields(id');
    var p2, q2 := p1 + "|room_pid=" + id.roomPid, q1 + "|room_pid=" + id'.roomPid;
    var p3, q3 := p2 + "|glyph=" + id.glyph, q2 + "|glyph=" + id'.glyph;
    var p4, q4 := p3 + "|cohort=" + id.cohort, q3 + "|cohort=" + id'.cohort;
    LastField(p4, "|hilbert=", Decimal(id.hilbert), q4, Decimal(id'.hilbert));
    LastField(p3, "|cohort=", id.cohort, q3, id'.cohort);
    LastField(p2, "|glyph=", id.glyph, q2, id'.glyph);
    LastField(p1, "|room_pid=", id.roomPid, q1, id'.roomPid);
    DecimalInjective(id.hilbert, id'.hilbert);
  }

  lemma SeatReadsBack(id: BootIdentity, id': BootIdentity)
    requires NoBars(id) && NoBars(id') && SeatFields(id) == SeatFields(id')
    ensures id.seat == id'.seat && id.devicePid == id'.devicePid
    ensures id.operatorPid == id'.operatorPid && id.coOperatorPid == id'.coOperatorPid
  {
    hide IdentityHeader;
    var p1 := IdentityHeader();
    var p2, q2 := p1 + "|seat=" + id.seat, p1 + "|seat=" + id'.seat;
    var p3, q3 := p2 + "|device_pid=" + id.devicePid, q2 + "|device_pid=" + id'.devicePid;
    var p4, q4 := p3 + "|operator_pid=" + id.operatorPid, q3 + "|operator_pid=" + id'.operatorPid;
    LastField(p4, "|co_operator_pid=", id.coOperatorPid, q4, id'.coOperatorPid);
    LastField(p3, "|operator_pid=", id.operatorPid, q3, id'.operatorPid);
    LastField(p2, "|device_pid=", id.devicePid, q2, id'.devicePid);
    LastField(p1, "|seat=", id.seat, p1, id'.seat);
  }
}
