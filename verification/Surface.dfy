/** Base64 as section 4 of RFC 4648 defines it, and the surface's encoder. */
module Base64Coding {
  import opened Words

  // ----- the alphabet, table 1

  function Symbol(v: nat): char
    requires v < 64
  {
    if v < 26 then 'A' + v as char
    else if v < 52 then 'a' + (v - 26) as char
    else if v < 62 then '0' + (v - 52) as char
    else if v == 62 then '+'
    else '/'
  }

  function Value(c: char): Option<nat> {
    if 'A' <= c <= 'Z' then Some(c as nat - 'A' as nat)
    else if 'a' <= c <= 'z' then Some(c as nat - 'a' as nat + 26)
    else if '0' <= c <= '9' then Some(c as nat - '0' as nat + 52)
    else if c == '+' then Some(62)
    else if c == '/' then Some(63)
    else None
  }

  lemma SymbolsAndValues(v: nat, c: char)
    requires v < 64
    ensures Value(Symbol(v)) == Some(v)
    ensures Value(c).Some? ==> Value(c).value < 64 && Symbol(Value(c).value) == c
  {
  }

  // ----- a group of 24 bits

  function Group(b0: byte, b1: byte, b2: byte): nat { b0 * 65536 + b1 * 256 + b2 }

  /** The four symbols of a 24-bit group. */
  function Symbols(g: nat): (s: string)
    requires g < 16777216
    ensures |s| == 4
  {
    [Symbol(g / 262144), Symbol(g / 4096 % 64), Symbol(g / 64 % 64), Symbol(g % 64)]
  }

  function GroupOf(s: string): (g: Option<nat>)
    requires |s| == 4
    ensures g.Some? ==> g.value < 16777216
  {
    match (Value(s[0]), Value(s[1]), Value(s[2]), Value(s[3]))
    case (Some(v0), Some(v1), Some(v2), Some(v3)) => Some(v0 * 262144 + v1 * 4096 + v2 * 64 + v3)
    case _ => None
  }

  function Bytes(g: nat): (bs: seq<byte>)
    requires g < 16777216
    ensures |bs| == 3
  {
    [g / 65536, g / 256 % 256, g % 256]
  }

  function ByteOr0(data: seq<byte>, i: nat): byte { if i < |data| then data[i] else 0 }

  /** The first group of the input, extended with zero bits if fewer than three bytes are left. */
  function LeadGroup(data: seq<byte>): nat
    requires data != []
  {
    Group(data[0], ByteOr0(data, 1), ByteOr0(data, 2))
  }

  function Padding(n: nat): string { if n == 1 then "==" else if n == 2 then "=" else "" }

  /** A group of `n` bytes gives `n + 1` symbols and padding up to four characters. */
  function Encode(data: seq<byte>): string {
    if data == [] then ""
    else
      var n := Min(3, |data|);
      GroupBytes(data[0], ByteOr0(data, 1), ByteOr0(data, 2));
      Symbols(LeadGroup(data))[..n + 1] + Padding(n) + Encode(data[n..])
  }

  /** One quantum; padding is allowed in the last quantum only, and the bits it cuts off must be zero. */
  function DecodeQuantum(s: string, last: bool): Option<seq<byte>>
    requires |s| == 4
  {
    if last && s[2..] == "==" then
      match GroupOf(s[..2] + "AA")
      case Some(g) => if g % 65536 == 0 then Some(Bytes(g)[..1]) else None
      case None => None
    else if last && s[3] == '=' then
      match GroupOf(s[..3] + "A")
      case Some(g) => if g % 256 == 0 then Some(Bytes(g)[..2]) else None
      case None => None
    else
      match GroupOf(s)
      case Some(g) => Some(Bytes(g))
      case None => None
  }

  function Decode(text: string): Option<seq<byte>> {
    if text == "" then Some([])
    else if |text| < 4 then None
    else
      match (DecodeQuantum(text[..4], |text| == 4), Decode(text[4..]))
      case (Some(head), Some(tail)) => Some(head + tail)
      case _ => None
  }

  lemma GroupBytes(b0: byte, b1: byte, b2: byte)
    ensures Group(b0, b1, b2) < 16777216 && Bytes(Group(b0, b1, b2)) == [b0, b1, b2]
  {
    var g := Group(b0, b1, b2);
    assert g / 65536 == b0;
    assert g / 256 == b0 * 256 + b1;
  }

  lemma BytesGroup(g: nat)
    requires g < 16777216
    ensures var bs := Bytes(g); Group(bs[0], bs[1], bs[2]) == g
  {
  }

  lemma GroupSymbols(g: nat)
    requires g < 16777216
    ensures GroupOf(Symbols(g)) == Some(g)
  {
    SymbolsAndValues(g / 262144, 'A');
    SymbolsAndValues(g / 4096 % 64, 'A');
    SymbolsAndValues(g / 64 % 64, 'A');
    SymbolsAndValues(g % 64, 'A');
    Digits64(g);
  }

  lemma Digits64(g: nat)
    ensures g == g / 262144 * 262144 + g / 4096 % 64 * 4096 + g / 64 % 64 * 64 + g % 64
  {
    assert g / 64 / 64 == g / 4096 && g / 4096 / 64 == g / 262144;
  }

  lemma SymbolsGroup(s: string)
    requires |s| == 4 && GroupOf(s).Some?
    ensures Symbols(GroupOf(s).value) == s
  {
    SymbolsAndValues(0, s[0]);
    SymbolsAndValues(0, s[1]);
    SymbolsAndValues(0, s[2]);
    SymbolsAndValues(0, s[3]);
    var v0, v1, v2, v3 := Value(s[0]).value, Value(s[1]).value, Value(s[2]).value, Value(s[3]).value;
    Places64(v0, v1, v2, v3);
  }

  lemma Places64(v0: nat, v1: nat, v2: nat, v3: nat)
    requires v1 < 64 && v2 < 64 && v3 < 64
    ensures var g := v0 * 262144 + v1 * 4096 + v2 * 64 + v3;
            g / 262144 == v0 && g / 4096 % 64 == v1 && g / 64 % 64 == v2 && g % 64 == v3
  {
    var g := v0 * 262144 + v1 * 4096 + v2 * 64 + v3;
    assert g / 64 == v0 * 4096 + v1 * 64 + v2;
    assert g / 4096 == v0 * 64 + v1;
  }

  /** The symbols of a group, computed byte by byte with shifts and masks. */
  lemma SplitGroup(b0: byte, b1: byte, b2: byte)
    ensures Group(b0, b1, b2) < 16777216
    ensures Symbols(Group(b0, b1, b2))
            == [Symbol(b0 / 4), Symbol(b0 % 4 * 16 + b1 / 16), Symbol(b1 % 16 * 4 + b2 / 64), Symbol(b2 % 64)]
  {
    hide Symbol;
    var v1, v2 := b0 % 4 * 16 + b1 / 16, b1 % 16 * 4 + b2 / 64;
    assert Group(b0, b1, b2) == b0 / 4 * 262144 + v1 * 4096 + v2 * 64 + b2 % 64;
    Places64(b0 / 4, v1, v2, b2 % 64);
  }

  function Quantum(b0: byte, b1: byte, b2: byte, n: nat): string {
    [Symbol(b0 / 4), Symbol(b0 % 4 * 16 + b1 / 16), if n > 1 then Symbol(b1 % 16 * 4 + b2 / 64) else '=',
     if n > 2 then Symbol(b2 % 64) else '=']
  }

  /** One round of the encoder: the characters of up to three bytes. */
  method EncodeChunk(chunk: seq<byte>) returns (q: string)
    requires 1 <= |chunk| <= 3
    ensures q == Quantum(chunk[0], ByteOr0(chunk, 1), ByteOr0(chunk, 2), |chunk|)
  {
    hide Symbol;
    var b0, b1, b2 := chunk[0], ByteOr0(chunk, 1), ByteOr0(chunk, 2);
    q := [Symbol(b0 / 4)];
    q := q + [Symbol(b0 % 4 * 16 + b1 / 16)];
    q := q + [if |chunk| > 1 then Symbol(b1 % 16 * 4 + b2 / 64) else '='];
    q := q + [if |chunk| > 2 then Symbol(b2 % 64) else '='];
  }

  /** The surface's encoder, three bytes a round. */
  method Base64(data: seq<byte>) returns (out: string)
    ensures out == Encode(data)
  {
    hide Quantum, Encode;
    out := "";
    EncodeNothing();
    var i := 0;
    while i < |data|
      invariant i <= |data|
      invariant out + Encode(data[i..]) == Encode(data)
    {
      ghost var rest := data[i..];
      var n := Min(3, |data| - i);
      var chunk := data[i..i + n];
      var q := EncodeChunk(chunk);
      EncodeStep(rest, chunk[0], ByteOr0(chunk, 1), ByteOr0(chunk, 2), n);
      assert out + Encode(rest) == (out + q) + Encode(rest[n..]);
      out := out + q;
      i := i + n;
      assert data[i..] == rest[n..];
    }
    assert data[i..] == [];
  }

  lemma EncodeNothing()
    ensures Encode([]) == ""
  {
  }

  lemma QuantumText(b0: byte, b1: byte, b2: byte, n: nat)
    requires 1 <= n <= 3
    ensures Group(b0, b1, b2) < 16777216
    ensures Quantum(b0, b1, b2, n) == Symbols(Group(b0, b1, b2))[..n + 1] + Padding(n)
  {
    hide Symbol, Symbols, Group;
    SplitGroup(b0, b1, b2);
    var full := Symbols(Group(b0, b1, b2));
    assert full[..2] == [full[0], full[1]] && full[..3] == [full[0], full[1], full[2]];
    assert full[..4] == full && "=" == ['='] && "==" == ['=', '='];
  }

  lemma EncodeStep(rest: seq<byte>, b0: byte, b1: byte, b2: byte, n: nat)
    requires rest != [] && n == Min(3, |rest|) && b0 == rest[0] && b1 == ByteOr0(rest, 1) && b2 == ByteOr0(rest, 2)
    ensures Encode(rest) == Quantum(b0, b1, b2, n) + Encode(rest[n..])
  {
    hide Quantum, Symbols, Group;
    QuantumText(b0, b1, b2, n);
  }

  lemma {:induction false} EncodedLength(data: seq<byte>)
    ensures |Encode(data)| == 4 * ((|data| + 2) / 3)
  {
    hide Symbols, Group;
    if data != [] {
      var n := Min(3, |data|);
      EncodedLength(data[n..]);
      assert (|data| + 2) / 3 == (|data| - n + 2) / 3 + 1;
    }
  }

  lemma DecodeAfterQuantum(q: string, rest: string)
    requires |q| == 4
    ensures Decode(q + rest) == match (DecodeQuantum(q, rest == ""), Decode(rest))
                                case (Some(head), Some(tail)) => Some(head + tail)
                                case _ => None
  {
    hide DecodeQuantum;
    assert (q + rest)[..4] == q && (q + rest)[4..] == rest;
  }

  lemma SymbolIsNotPadding(v: nat)
    requires v < 64
    ensures Symbol(v) != '='
  {
  }

  /** Decoding undoes encoding, for every byte string. */
  lemma {:induction false} DecodeUndoesEncode(data: seq<byte>)
    ensures Decode(Encode(data)) == Some(data)
  {
    hide Symbol, Symbols, Group, Bytes, GroupOf, Value, Quantum, DecodeQuantum;
    if data != [] {
      var n := Min(3, |data|);
      var b0, b1, b2 := data[0], ByteOr0(data, 1), ByteOr0(data, 2);
      EncodeStep(data, b0, b1, b2, n);
      DecodeUndoesEncode(data[n..]);
      EncodedLength(data[n..]);
      QuantumText(b0, b1, b2, n);
      DecodeAfterQuantum(Quantum(b0, b1, b2, n), Encode(data[n..]));
      QuantumDecodes(b0, b1, b2, n, Encode(data[n..]) == "");
      assert data == [b0, b1, b2][..n] + data[n..];
    }
  }

  lemma DecodeOne(q: string, g: nat)
    requires |q| == 4 && q[2..] == "==" && GroupOf(q[..2] + "AA") == Some(g) && g % 65536 == 0
    ensures g < 16777216 && DecodeQuantum(q, true) == Some(Bytes(g)[..1])
  {
    hide GroupOf, Bytes;
  }

  lemma DecodeTwo(q: string, g: nat)
    requires |q| == 4 && q[2] != '=' && q[3] == '=' && GroupOf(q[..3] + "A") == Some(g) && g % 256 == 0
    ensures g < 16777216 && DecodeQuantum(q, true) == Some(Bytes(g)[..2])
  {
    hide GroupOf, Bytes;
    assert q[2..][0] == q[2];
  }

  lemma DecodeThree(q: string, last: bool, g: nat)
    requires |q| == 4 && q[3] != '=' && GroupOf(q) == Some(g)
    ensures g < 16777216 && DecodeQuantum(q, last) == Some(Bytes(g))
  {
    hide GroupOf, Bytes;
    assert q[2..][1] == q[3];
  }

  lemma QuantumDecodes(b0: byte, b1: byte, b2: byte, n: nat, last: bool)
    requires 1 <= n <= 3 && (n < 3 ==> last) && (n < 2 ==> b1 == 0) && (n < 3 ==> b2 == 0)
    ensures DecodeQuantum(Quantum(b0, b1, b2, n), last) == Some([b0, b1, b2][..n])
  {
    hide Symbol, Symbols, Group, Bytes, GroupOf, DecodeQuantum;
    var q, g := Quantum(b0, b1, b2, n), Group(b0, b1, b2);
    QuantumGroup(b0, b1, b2);
    SplitGroup(b0, b1, b2);
    SymbolIsNotPadding(b1 % 16 * 4 + b2 / 64);
    SymbolIsNotPadding(b2 % 64);
    ZeroSymbol();
    if n == 1 {
      assert q[..2] + "AA" == Symbols(g);
      DecodeOne(q, g);
    } else if n == 2 {
      assert q[..3] + "A" == Symbols(g);
      DecodeTwo(q, g);
    } else {
      assert q == Symbols(g);
      DecodeThree(q, last, g);
      assert [b0, b1, b2][..3] == [b0, b1, b2];
    }
  }

  lemma ZeroSymbol()
    ensures Symbol(0) == 'A'
  {
  }

  lemma QuantumGroup(b0: byte, b1: byte, b2: byte)
    ensures var g := Group(b0, b1, b2);
            && g < 16777216 && GroupOf(Symbols(g)) == Some(g) && Bytes(g) == [b0, b1, b2]
            && g % 65536 == b1 * 256 + b2 && g % 256 == b2
  {
    GroupBytes(b0, b1, b2);
    GroupSymbols(Group(b0, b1, b2));
  }

  lemma DecodeSplit(text: string)
    requires text != "" && Decode(text).Some?
    ensures |text| >= 4
    ensures DecodeQuantum(text[..4], |text| == 4).Some? && Decode(text[4..]).Some?
    ensures Decode(text).value == DecodeQuantum(text[..4], |text| == 4).value + Decode(text[4..]).value
    ensures |text| == 4 ==> Decode(text[4..]) == Some([])
  {
    hide DecodeQuantum;
  }

  lemma EncodeConcat(head: seq<byte>, tail: seq<byte>)
    requires |head| == 3 || (1 <= |head| < 3 && tail == [])
    ensures Encode(head + tail) == Encode(head) + Encode(tail)
  {
    hide Symbols, Group;
    if |head| == 3 {
      assert (head + tail)[3..] == tail && head[3..] == [];
    } else {
      assert head + tail == head;
    }
  }

  /** Only encodings are decoded: what decodes to `data` is the encoding of `data`. */
  lemma {:induction false} EncodeUndoesDecode(text: string)
    requires Decode(text).Some?
    ensures Encode(Decode(text).value) == text
  {
    hide Symbols, Group, DecodeQuantum;
    if text != "" {
      DecodeSplit(text);
      hide Encode, Decode;
      EncodeUndoesDecode(text[4..]);
      QuantumReencodes(text[..4], |text| == 4);
      EncodeConcat(DecodeQuantum(text[..4], |text| == 4).value, Decode(text[4..]).value);
      assert text == text[..4] + text[4..];
    }
  }

  lemma EncodeShort(bs: seq<byte>)
    requires 1 <= |bs| <= 3
    ensures LeadGroup(bs) < 16777216 && Encode(bs) == Symbols(LeadGroup(bs))[..|bs| + 1] + Padding(|bs|)
  {
    hide Symbols;
    GroupBytes(bs[0], ByteOr0(bs, 1), ByteOr0(bs, 2));
    hide Group;
    assert bs[|bs|..] == [] && Encode([]) == "";
  }

  lemma ReencodeOne(s: string, g: nat)
    requires |s| == 4 && s[2..] == "==" && GroupOf(s[..2] + "AA") == Some(g) && g % 65536 == 0
    ensures g < 16777216 && Encode(Bytes(g)[..1]) == s
  {
    SymbolsGroup(s[..2] + "AA");
    BytesGroup(g);
    EncodeShort(Bytes(g)[..1]);
    assert Bytes(g)[1] == 0 && Bytes(g)[2] == 0;
    hide Symbols, GroupOf, Group, Bytes;
    assert (s[..2] + "AA")[..2] == s[..2] && s == s[..2] + "==";
  }

  lemma ReencodeTwo(s: string, g: nat)
    requires |s| == 4 && s[3] == '=' && GroupOf(s[..3] + "A") == Some(g) && g % 256 == 0
    ensures g < 16777216 && Encode(Bytes(g)[..2]) == s
  {
    SymbolsGroup(s[..3] + "A");
    BytesGroup(g);
    EncodeShort(Bytes(g)[..2]);
    assert Bytes(g)[2] == 0;
    hide Symbols, GroupOf, Group, Bytes;
    assert (s[..3] + "A")[..3] == s[..3] && s == s[..3] + "=";
  }

  lemma ReencodeThree(s: string, g: nat)
    requires |s| == 4 && GroupOf(s) == Some(g)
    ensures g < 16777216 && Encode(Bytes(g)) == s
  {
    SymbolsGroup(s);
    BytesGroup(g);
    EncodeShort(Bytes(g));
    hide Symbols, GroupOf, Group, Bytes;
    assert s[..4] == s;
  }

  lemma QuantumReencodes(s: string, last: bool)
    requires |s| == 4 && DecodeQuantum(s, last).Some?
    ensures var bs := DecodeQuantum(s, last).value;
            && 1 <= |bs| <= 3 && (|bs| < 3 ==> last)
            && Encode(bs) == s
  {
    hide GroupOf, Bytes, Encode;
    if last && s[2..] == "==" {
      ReencodeOne(s, GroupOf(s[..2] + "AA").value);
    } else if last && s[3] == '=' {
      ReencodeTwo(s, GroupOf(s[..3] + "A").value);
    } else {
      ReencodeThree(s, GroupOf(s).value);
    }
  }

  /** Test vectors of section 10 of RFC 4648: "f", "fo" and "foo". */
  lemma KnownEncodings()
    ensures Encode([102]) == "Zg==" && Encode([102, 111]) == "Zm8=" && Encode([102, 111, 111]) == "Zm9v"
  {
    KnownSymbols();
    EncodeShort([102]);
    EncodeShort([102, 111]);
    EncodeShort([102, 111, 111]);
    hide Encode, Symbols;
  }

  lemma KnownSymbols()
    ensures Symbols(0x660000) == "ZgAA" && Symbols(0x666F00) == "Zm8A" && Symbols(0x666F6F) == "Zm9v"
  {
    SymbolsOf(0x660000, 25, 32, 0, 0);
    SymbolsOf(0x666F00, 25, 38, 60, 0);
    SymbolsOf(0x666F6F, 25, 38, 61, 47);
    hide Symbols;
  }

  lemma SymbolsOf(g: nat, a: nat, b: nat, c: nat, d: nat)
    requires a < 64 && b < 64 && c < 64 && d < 64 && g == a * 262144 + b * 4096 + c * 64 + d
    ensures g < 16777216 && Symbols(g) == [Symbol(a), Symbol(b), Symbol(c), Symbol(d)]
  {
    assert g / 64 == a * 4096 + b * 64 + c && g / 4096 == a * 64 + b && g / 262144 == a;
  }
}

/** Terminal sessions: pumps append output while any number of viewers stream it. */
module SessionStream {
  import opened Words
  import opened Base64Coding

  /** What a viewer is sent after the label. */
  datatype Event = Data(text: string) | KeepAlive | End

  /** Where a viewer's loop is: at the lock, at the liveness check, at the write, or gone. */
  datatype Pc =
    | AtLock
    | AtAlive(chunk: Option<seq<byte>>)
    | AtWrite(chunk: Option<seq<byte>>, alive: bool)
    | Gone

  datatype Viewer = Viewer(pc: Pc, offset: nat, idleTicks: u32, sent: seq<Event>)

  /** The shared output buffer, whether the session is still registered, and its viewers. */
  datatype Sys = Sys(out: seq<byte>, registered: bool, viewers: seq<Viewer>)

  /** `ok` says whether the write of this step, if it makes one, succeeds. */
  datatype Action =
    | Pump(bytes: seq<byte>)
    | Kill
    | Join
    | Step(v: nat, ok: bool)

  predicate Enabled(s: Sys, a: Action) {
    match a
    case Pump(bytes) => 0 < |bytes| <= 4096
    case Kill => true
    case Join => s.registered
    case Step(v, _) => v < |s.viewers| && s.viewers[v].pc != Gone && s.viewers[v].offset <= |s.out|
  }

  /** The last part of the loop body. */
  function AfterWrite(w: Viewer, ok: bool): Viewer
    requires w.pc.AtWrite?
  {
    match w.pc.chunk
    case Some(c) =>
      if ok then w.(pc := AtLock, idleTicks := 0, sent := w.sent + [Data(Encode(c))])
      else w.(pc := Gone, idleTicks := 0)
    case None =>
      if !w.pc.alive then w.(pc := Gone, sent := if ok then w.sent + [End] else w.sent)
      else
        var ticks := Wrap32(w.idleTicks + 1);
        if ticks % 100 != 0 then w.(pc := AtLock, idleTicks := ticks)
        else if ok then w.(pc := AtLock, idleTicks := ticks, sent := w.sent + [KeepAlive])
        else w.(pc := Gone, idleTicks := ticks)
  }

  function ViewerStep(s: Sys, w: Viewer, ok: bool): Viewer
    requires w.pc != Gone && w.offset <= |s.out|
  {
    match w.pc
    case AtLock =>
      if |s.out| > w.offset
      then w.(pc := AtAlive(Some(s.out[w.offset..])), offset := |s.out|)
      else w.(pc := AtAlive(None))
    case AtAlive(chunk) => w.(pc := AtWrite(chunk, s.registered))
    case AtWrite(_, _) => AfterWrite(w, ok)
  }

  function Apply(s: Sys, a: Action): Sys
    requires Enabled(s, a)
  {
    match a
    case Pump(bytes) => s.(out := s.out + bytes)
    case Kill => s.(registered := false)
    case Join => s.(viewers := s.viewers + [Viewer(AtLock, 0, 0, [])])
    case Step(v, ok) => s.(viewers := s.viewers[v := ViewerStep(s, s.viewers[v], ok)])
  }

  /** The bytes a client decodes from the data events it received. */
  function Received(es: seq<Event>): Option<seq<byte>> {
    if es == [] then Some([])
    else
      match (Received(es[..|es| - 1]), es[|es| - 1])
      case (Some(got), Data(text)) =>
        (match Decode(text) case Some(bytes) => Some(got + bytes) case None => None)
      case (got, _) => got
  }

  lemma ReceivedAppend(es: seq<Event>, e: Event)
    ensures Received(es + [e]) == match (Received(es), e)
                                  case (Some(got), Data(text)) =>
                                    (match Decode(text) case Some(bytes) => Some(got + bytes) case None => None)
                                  case (got, _) => got
  {
    assert (es + [e])[..|es|] == es;
  }

  /** The chunk taken under the lock and not yet written. */
  function InFlight(w: Viewer): seq<byte> {
    match w.pc
    case AtAlive(Some(c)) => c
    case AtWrite(Some(c), _) => c
    case _ => []
  }

  /** Received and in-flight bytes are the output up to the offset; a viewer that is gone may miss the last chunk. */
  ghost predicate ViewerOk(out: seq<byte>, w: Viewer) {
    && w.offset <= |out|
    && Received(w.sent).Some?
    && (w.pc != Gone ==> End !in w.sent && Received(w.sent).value + InFlight(w) == out[..w.offset])
    && (End in w.sent ==> w.pc == Gone && Received(w.sent).value == out[..w.offset])
    && Received(w.sent).value <= out[..w.offset]
  }

  ghost predicate Inv(s: Sys) { forall v | 0 <= v < |s.viewers| :: ViewerOk(s.out, s.viewers[v]) }

  lemma StepKeepsInv(s: Sys, a: Action)
    requires Inv(s) && Enabled(s, a)
    ensures Inv(Apply(s, a)) && s.out <= Apply(s, a).out
  {
    hide Decode, Encode;
    var s' := Apply(s, a);
    forall v | 0 <= v < |s'.viewers| ensures ViewerOk(s'.out, s'.viewers[v]) {
      if v < |s.viewers| {
        OutputGrows(s.out, s'.out, s.viewers[v]);
        if a.Step? && a.v == v {
          ViewerStepKeeps(s, s.viewers[v], a.ok);
        }
      }
    }
  }

  lemma OutputGrows(out: seq<byte>, out': seq<byte>, w: Viewer)
    requires ViewerOk(out, w) && out <= out'
    ensures ViewerOk(out', w)
  {
    assert out'[..w.offset] == out[..w.offset];
  }

  lemma ViewerStepKeeps(s: Sys, w: Viewer, ok: bool)
    requires ViewerOk(s.out, w) && w.pc != Gone
    ensures ViewerOk(s.out, ViewerStep(s, w, ok))
  {
    hide Decode, Encode, Received;
    var w', got := ViewerStep(s, w, ok), Received(w.sent).value;
    match w.pc {
      case AtLock =>
        assert s.out[..w.offset] + s.out[w.offset..] == s.out[..|s.out|];
      case AtAlive(_) =>
      case AtWrite(chunk, alive) =>
        assert got <= got + InFlight(w);
        if w'.sent != w.sent {
          ReceivedAppend(w.sent, w'.sent[|w.sent|]);
          assert w'.sent == w.sent + [w'.sent[|w.sent|]];
          if chunk.Some? {
            DecodeUndoesEncode(chunk.value);
          }
        }
    }
  }

  // ----- whole runs

  ghost predicate Runs(s: Sys, acts: seq<Action>)
    decreases acts
  {
    acts == [] || (Enabled(s, acts[0]) && Runs(Apply(s, acts[0]), acts[1..]))
  }

  ghost function Exec(s: Sys, acts: seq<Action>): Sys
    requires Runs(s, acts)
    decreases acts
  {
    if acts == [] then s else Exec(Apply(s, acts[0]), acts[1..])
  }

  lemma {:induction false} RunKeepsInv(s: Sys, acts: seq<Action>)
    requires Inv(s) && Runs(s, acts)
    ensures Inv(Exec(s, acts)) && s.out <= Exec(s, acts).out
    decreases acts
  {
    hide Inv, Apply;
    if acts != [] {
      StepKeepsInv(s, acts[0]);
      RunKeepsInv(Apply(s, acts[0]), acts[1..]);
    }
  }

  /**
   * Whatever the pumps, the kill, the other viewers and the writes do: what a client decodes is a
   * prefix of the session output; it lacks nothing before the offset unless a write failed.
   */
  lemma ClientSeesPrefix(out: seq<byte>, acts: seq<Action>, v: nat)
    requires Runs(Sys(out, true, []), acts) && v < |Exec(Sys(out, true, []), acts).viewers|
    ensures var s := Exec(Sys(out, true, []), acts);
            var w := s.viewers[v];
            && w.offset <= |s.out| && Received(w.sent).Some? && Received(w.sent).value <= s.out
            && (w.pc == AtLock ==> Received(w.sent).value == s.out[..w.offset])
            && (End in w.sent ==> w.pc == Gone && Received(w.sent).value == s.out[..w.offset])
  {
    RunKeepsInv(Sys(out, true, []), acts);
    var s := Exec(Sys(out, true, []), acts);
    assert ViewerOk(s.out, s.viewers[v]);
  }

  /** An undisturbed round of the loop delivers everything there is. */
  lemma QuietRoundCatchesUp(s: Sys, v: nat)
    requires Inv(s) && v < |s.viewers| && s.viewers[v].pc == AtLock && |s.out| > s.viewers[v].offset
    ensures var round := [Step(v, true), Step(v, true), Step(v, true)];
            && Runs(s, round) && |Exec(s, round).viewers| == |s.viewers|
            && var w := Exec(s, round).viewers[v];
               w.pc == AtLock && Received(w.sent) == Some(s.out)
  {
    hide Encode, Decode, Received;
    var one := Step(v, true);
    var w := s.viewers[v];
    var chunk := s.out[w.offset..];
    assert ViewerOk(s.out, w);
    var s1 := s.(viewers := s.viewers[v := w.(pc := AtAlive(Some(chunk)), offset := |s.out|)]);
    var s2 := s.(viewers := s.viewers[v := w.(pc := AtWrite(Some(chunk), s.registered), offset := |s.out|)]);
    var done := w.(pc := AtLock, offset := |s.out|, idleTicks := 0, sent := w.sent + [Data(Encode(chunk))]);
    var s3 := s.(viewers := s.viewers[v := done]);
    ThreeSteps(s, one, s1, s2, s3);
    StepKeepsInv(s, one);
    StepKeepsInv(s1, one);
    StepKeepsInv(s2, one);
    assert ViewerOk(s3.out, done);
    assert s3.out[..|s3.out|] == s3.out;
  }

  /** A viewer one idle round later: one tick more, and at every hundredth the client is kept awake. */
  function Idled(w: Viewer): Viewer {
    var ticks := Wrap32(w.idleTicks + 1);
    w.(idleTicks := ticks, sent := if ticks % 100 == 0 then w.sent + [KeepAlive] else w.sent)
  }

  /** A round of a live session that finds nothing new only waits: no data, no end, the same offset. */
  lemma IdleRound(s: Sys, v: nat)
    requires Inv(s) && v < |s.viewers| && s.viewers[v].pc == AtLock && |s.out| == s.viewers[v].offset && s.registered
    ensures var round := [Step(v, true), Step(v, true), Step(v, true)];
            && Runs(s, round)
            && Exec(s, round) == s.(viewers := s.viewers[v := Idled(s.viewers[v])])
    ensures var w, w' := s.viewers[v], Idled(s.viewers[v]);
            && w'.pc == AtLock && w'.offset == w.offset && Received(w'.sent) == Received(w.sent)
            && (End in w'.sent <==> End in w.sent)
  {
    var w := s.viewers[v];
    ReceivedAppend(w.sent, KeepAlive);
    IdleWrite(w);
    IdleSteps(s, v, Idled(w));
  }

  lemma IdleSteps(s: Sys, v: nat, done: Viewer)
    requires Inv(s) && v < |s.viewers| && s.viewers[v].pc == AtLock && |s.out| == s.viewers[v].offset && s.registered
    requires done == AfterWrite(s.viewers[v].(pc := AtWrite(None, true)), true)
    ensures var round := [Step(v, true), Step(v, true), Step(v, true)];
            Runs(s, round) && Exec(s, round) == s.(viewers := s.viewers[v := done])
  {
    hide Decode, Encode, Received, AfterWrite;
    var w := s.viewers[v];
    var s1 := s.(viewers := s.viewers[v := w.(pc := AtAlive(None))]);
    var s2 := s.(viewers := s.viewers[v := w.(pc := AtWrite(None, true))]);
    ThreeSteps(s, Step(v, true), s1, s2, s.(viewers := s.viewers[v := done]));
  }

  lemma IdleWrite(w: Viewer)
    requires w.pc == AtLock
    ensures AfterWrite(w.(pc := AtWrite(None, true)), true) == Idled(w)
  {
  }

  /** A round of a dead session that finds nothing new ends the stream, of which the client has everything. */
  lemma LastRound(s: Sys, v: nat)
    requires Inv(s) && v < |s.viewers| && s.viewers[v].pc == AtLock && |s.out| == s.viewers[v].offset && !s.registered
    ensures var round := [Step(v, true), Step(v, true), Step(v, true)];
            var w := s.viewers[v];
            && Runs(s, round)
            && Exec(s, round) == s.(viewers := s.viewers[v := w.(pc := Gone, sent := w.sent + [End])])
            && Received(w.sent + [End]) == Some(s.out)
  {
    hide Decode, Encode, Received;
    var one := Step(v, true);
    var w := s.viewers[v];
    assert ViewerOk(s.out, w);
    assert s.out[..|s.out|] == s.out && Received(w.sent).value + [] == Received(w.sent).value;
    var s1 := s.(viewers := s.viewers[v := w.(pc := AtAlive(None))]);
    var s2 := s.(viewers := s.viewers[v := w.(pc := AtWrite(None, false))]);
    ReceivedAppend(w.sent, End);
    ThreeSteps(s, one, s1, s2, s.(viewers := s.viewers[v := w.(pc := Gone, sent := w.sent + [End])]));
  }

  lemma ThreeSteps(s: Sys, a: Action, s1: Sys, s2: Sys, s3: Sys)
    requires Enabled(s, a) && Apply(s, a) == s1
    requires Enabled(s1, a) && Apply(s1, a) == s2 && Enabled(s2, a) && Apply(s2, a) == s3
    ensures Runs(s, [a, a, a]) && Exec(s, [a, a, a]) == s3
  {
    hide Apply;
    var acts := Before(s2, a, s3, [], s3);
    acts := Before(s1, a, s2, acts, s3);
    acts := Before(s, a, s1, acts, s3);
    assert acts == [a, a, a];
  }

  // ----- when the end event is sent

  /** Only viewers of a dead session take it for dead. */
  ghost predicate EndsAreDue(s: Sys) {
    forall v | 0 <= v < |s.viewers| :: EndIsDue(s.registered, s.viewers[v])
  }

  ghost predicate EndIsDue(registered: bool, w: Viewer) {
    End in w.sent || (w.pc.AtWrite? && !w.pc.alive) ==> !registered
  }

  lemma StepKeepsEndsDue(s: Sys, a: Action)
    requires EndsAreDue(s) && Enabled(s, a)
    ensures EndsAreDue(Apply(s, a))
    ensures Apply(s, a).registered == (s.registered && !a.Kill?)
  {
    hide Encode;
    var s' := Apply(s, a);
    forall v | 0 <= v < |s'.viewers| ensures EndIsDue(s'.registered, s'.viewers[v]) {
      assert v < |s.viewers| ==> EndIsDue(s.registered, s.viewers[v]);
    }
  }

  lemma {:induction false} RunKeepsEndsDue(s: Sys, acts: seq<Action>)
    requires EndsAreDue(s) && Runs(s, acts)
    ensures EndsAreDue(Exec(s, acts))
    ensures Exec(s, acts).registered <==> s.registered && Kill !in acts
    decreases acts
  {
    hide EndsAreDue, Apply, Enabled;
    if acts != [] {
      StepKeepsEndsDue(s, acts[0]);
      RunKeepsEndsDue(Apply(s, acts[0]), acts[1..]);
      assert Kill in acts <==> acts[0] == Kill || Kill in acts[1..];
    }
  }

  /** A viewer is sent the end event only after the session was killed. */
  lemma EndMeansKilled(out: seq<byte>, acts: seq<Action>, v: nat)
    requires Runs(Sys(out, true, []), acts) && v < |Exec(Sys(out, true, []), acts).viewers|
    requires End in Exec(Sys(out, true, []), acts).viewers[v].sent
    ensures Kill in acts
  {
    RunKeepsEndsDue(Sys(out, true, []), acts);
    var s := Exec(Sys(out, true, []), acts);
    assert EndIsDue(s.registered, s.viewers[v]);
  }

  // ----- when the end event is complete

  /** Viewer `v` looks at the output: it takes the lock and what is new. */
  predicate Looks(s: Sys, a: Action, v: nat) { a.Step? && a.v == v && v < |s.viewers| && s.viewers[v].pc == AtLock }

  /** Whether something was pumped since the last look of viewer `v`, if `pumped` says so at the start. */
  ghost predicate PumpedSinceLook(s: Sys, acts: seq<Action>, v: nat, pumped: bool)
    requires Runs(s, acts)
    decreases acts
  {
    if acts == [] then pumped
    else PumpedSinceLook(Apply(s, acts[0]), acts[1..], v, acts[0].Pump? || (pumped && !Looks(s, acts[0], v)))
  }

  /** Once a viewer has looked, its offset is the end of the output exactly if nothing was pumped since. */
  ghost predicate Tracks(s: Sys, v: nat, pumped: bool) {
    v < |s.viewers| && s.viewers[v].pc != AtLock ==> (s.viewers[v].offset == |s.out| <==> !pumped)
  }

  lemma StepTracks(s: Sys, a: Action, v: nat, pumped: bool)
    requires Inv(s) && Enabled(s, a) && Tracks(s, v, pumped)
    ensures Tracks(Apply(s, a), v, a.Pump? || (pumped && !Looks(s, a, v)))
  {
    hide Decode, Encode, Received;
    assert v < |s.viewers| ==> ViewerOk(s.out, s.viewers[v]);
  }

  lemma {:induction false} RunTracks(s: Sys, acts: seq<Action>, v: nat, pumped: bool)
    requires Inv(s) && Runs(s, acts) && Tracks(s, v, pumped)
    ensures Inv(Exec(s, acts)) && Tracks(Exec(s, acts), v, PumpedSinceLook(s, acts, v, pumped))
    decreases acts
  {
    hide Inv, Apply, Tracks, Looks, Enabled;
    if acts != [] {
      StepKeepsInv(s, acts[0]);
      StepTracks(s, acts[0], v, pumped);
      RunTracks(Apply(s, acts[0]), acts[1..], v, acts[0].Pump? || (pumped && !Looks(s, acts[0], v)));
    }
  }

  /**
   * A viewer that was sent the end event has received the whole output exactly if nothing was pumped
   * after its last look. Otherwise the bytes pumped since are lost to it.
   */
  lemma EndIsCompleteIff(out: seq<byte>, acts: seq<Action>, v: nat)
    requires Runs(Sys(out, true, []), acts) && v < |Exec(Sys(out, true, []), acts).viewers|
    requires End in Exec(Sys(out, true, []), acts).viewers[v].sent
    ensures var s := Exec(Sys(out, true, []), acts);
            Received(s.viewers[v].sent) == Some(s.out) <==> !PumpedSinceLook(Sys(out, true, []), acts, v, false)
  {
    hide Received;
    RunTracks(Sys(out, true, []), acts, v, false);
    var s := Exec(Sys(out, true, []), acts);
    var w := s.viewers[v];
    assert ViewerOk(s.out, w);
    if w.offset == |s.out| {
      assert s.out[..w.offset] == s.out;
    }
  }

  /** Viewer `v` does not look again during the run. */
  ghost predicate NoLook(s: Sys, acts: seq<Action>, v: nat)
    requires Runs(s, acts)
    decreases acts
  {
    acts == [] || (!Looks(s, acts[0], v) && NoLook(Apply(s, acts[0]), acts[1..], v))
  }

  lemma {:induction false} WithoutLookPumpsCount(s: Sys, acts: seq<Action>, v: nat, pumped: bool)
    requires Runs(s, acts) && NoLook(s, acts, v)
    ensures PumpedSinceLook(s, acts, v, pumped) <==> pumped || exists i | 0 <= i < |acts| :: acts[i].Pump?
    decreases acts
  {
    if acts != [] {
      WithoutLookPumpsCount(Apply(s, acts[0]), acts[1..], v, acts[0].Pump? || pumped);
      assert forall i | 1 <= i < |acts| :: acts[i] == acts[1..][i - 1];
      if exists i | 0 <= i < |acts[1..]| :: acts[1..][i].Pump? {
        var i :| 0 <= i < |acts[1..]| && acts[1..][i].Pump?;
        assert acts[i + 1].Pump?;
      }
    }
  }

  /** An end event that follows a look that found nothing new is complete exactly if nothing is pumped in between. */
  lemma EndAfterEmptyLookIff(s: Sys, acts: seq<Action>, v: nat)
    requires Inv(s) && v < |s.viewers| && s.viewers[v].pc == AtAlive(None) && s.viewers[v].offset == |s.out|
    requires Runs(s, acts) && NoLook(s, acts, v)
    requires v < |Exec(s, acts).viewers| && End in Exec(s, acts).viewers[v].sent
    ensures Received(Exec(s, acts).viewers[v].sent) == Some(Exec(s, acts).out)
            <==> forall i | 0 <= i < |acts| :: !acts[i].Pump?
  {
    hide Received;
    RunTracks(s, acts, v, false);
    WithoutLookPumpsCount(s, acts, v, false);
    var s' := Exec(s, acts);
    var w := s'.viewers[v];
    assert ViewerOk(s'.out, w);
    if w.offset == |s'.out| {
      assert s'.out[..w.offset] == s'.out;
    }
  }

  /**
   * So the end event does not promise the whole output: here a byte pumped between the last look and
   * the kill is lost.
   */
  lemma EndCanComeEarly(b: byte)
    ensures exists acts ::
              && Runs(Sys([], true, []), acts)
              && var s := Exec(Sys([], true, []), acts);
                 |s.viewers| == 1 && End in s.viewers[0].sent && Received(s.viewers[0].sent) == Some([]) && s.out == [b]
  {
    hide Decode, Encode, Received;
    var w := Viewer(AtLock, 0, 0, []);
    var s1 := Sys([], true, [w]);
    var s2 := Sys([], true, [w.(pc := AtAlive(None))]);
    var s3 := s2.(out := [b]);
    var s4 := s3.(registered := false);
    var s5 := s4.(viewers := [w.(pc := AtWrite(None, false))]);
    var s6 := s4.(viewers := [w.(pc := Gone, sent := [End])]);
    ReceivedNothing();
    ReceivedAppend(w.sent, End);
    assert w.sent + [End] == [End];
    var acts := [];
    acts := Before(s5, Step(0, true), s6, acts, s6);
    acts := Before(s4, Step(0, true), s5, acts, s6);
    acts := Before(s3, Kill, s4, acts, s6);
    acts := Before(s2, Pump([b]), s3, acts, s6);
    acts := Before(s1, Step(0, true), s2, acts, s6);
    acts := Before(Sys([], true, []), Join, s1, acts, s6);
  }

  lemma ReceivedNothing()
    ensures Received([]) == Some([])
  {
  }

  /** Puts one action before a run. */
  lemma Before(s: Sys, a: Action, s': Sys, acts: seq<Action>, end: Sys) returns (all: seq<Action>)
    requires Enabled(s, a) && Apply(s, a) == s' && Runs(s', acts) && Exec(s', acts) == end
    ensures all == [a] + acts && Runs(s, all) && Exec(s, all) == end
  {
    all := [a] + acts;
    assert all[1..] == acts;
  }
}
