/** The PID grammar: one parser, three printers. Text holds one byte per character. */
module Pid {
  import opened Words

  const KNOWN_ROLES: set<string> := {
    "OPERATOR", "OP-JESSE", "OP-RAYSSA", "ACER", "LIRIS", "FALCON", "AETHER", "ASOLARIA-FEDERATION-REMAKE-1024"
  }

  const MARK: string := "-PID-"

  datatype PidErr =
    MalformedFormat | InvalidRegion | InvalidHostCode | InvalidActivity | InvalidWave | InvalidProcess | InvalidNonce
    | UnknownRole

  datatype PidSubclass = Regular | RegularExtended | Anchor | Pending

  datatype ParsedPid =
    | CanonicalPid(role: string, region: char, hostCode: string, activity: string, wave: string,
                   processTag: Option<string>, nonce: Option<string>)
    | AnchorPid(role: string, date: string)

  predicate IsValidRegion(c: char) { c == 'G' || c == 'H' || c == 'F' || c == 'D' }

  predicate IsHexDigit(c: char) { '0' <= c <= '9' || 'a' <= c <= 'f' || 'A' <= c <= 'F' }

  predicate IsValidHexN(s: string, n: nat) { |s| == n && forall i | 0 <= i < |s| :: IsHexDigit(s[i]) }

  predicate IsDate(s: string) {
    && |s| == 10 && s[4] == '-' && s[7] == '-'
    && forall i | 0 <= i < 10 && i != 4 && i != 7 :: IsDigit(s[i])
  }

  predicate MarkAt(s: string, k: nat) { k + |MARK| <= |s| && s[k..k + |MARK|] == MARK }

  /** `rfind("-PID-")`, looking at positions below `end`. */
  function RFind(s: string, end: nat): (r: Option<nat>)
    ensures r.Some? ==> r.value < end && MarkAt(s, r.value)
    ensures forall k: nat | (r.Some? ==> r.value < k) && k < end :: !MarkAt(s, k)
  {
    if end == 0 then None
    else if MarkAt(s, end - 1) then Some(end - 1)
    else RFind(s, end - 1)
  }

  function LastMark(s: string): Option<nat> { if |s| < |MARK| then None else RFind(s, |s| - |MARK| + 1) }

  /** `split('-')`. */
  function Split(s: string): (parts: seq<string>)
    ensures parts != []
  {
    if s == [] then [""]
    else
      var rest := Split(s[1..]);
      if s[0] == '-' then [""] + rest else [[s[0]] + rest[0]] + rest[1..]
  }

  /** A block of one letter and `n` hexadecimal digits. */
  predicate IsBlock(s: string, letter: char, n: nat) { s != [] && s[0] == letter && IsValidHexN(s[1..], n) }

  function ParseTail(role: string, parts: seq<string>): Result<ParsedPid, PidErr> {
    if |parts| != 3 && |parts| != 5 then Err(MalformedFormat)
    else if |parts[0]| != 5 then Err(MalformedFormat)
    else if !IsValidRegion(parts[0][0]) then Err(InvalidRegion)
    else if !IsValidHexN(parts[0][1..], 4) then Err(InvalidHostCode)
    else if !IsBlock(parts[1], 'A', 2) then Err(InvalidActivity)
    else if !IsBlock(parts[2], 'W', 3) then Err(InvalidWave)
    else if |parts| == 5 && !IsBlock(parts[3], 'P', 2) then Err(InvalidProcess)
    else if |parts| == 5 && !IsBlock(parts[4], 'N', 5) then Err(InvalidNonce)
    else Ok(CanonicalPid(role, parts[0][0], parts[0][1..], parts[1][1..], parts[2][1..],
                         if |parts| == 5 then Some(parts[3][1..]) else None,
                         if |parts| == 5 then Some(parts[4][1..]) else None))
  }

  function ParsePid(pid: string): Result<ParsedPid, PidErr> {
    var mark := LastMark(pid);
    if mark == None then Err(MalformedFormat)
    else
      var role, tail := pid[..mark.value], pid[mark.value + |MARK|..];
      if IsDate(tail) then Ok(AnchorPid(role, tail))
      else ParseTail(role, Split(tail))
  }

  function ValidatePid(pid: string, strictRole: bool): Result<(), PidErr> {
    var parsed := ParsePid(pid);
    if parsed.Err? then Err(parsed.error)
    else if strictRole && parsed.value.role !in KNOWN_ROLES then Err(UnknownRole)
    else Ok(())
  }

  function ClassifySubclass(pid: string): PidSubclass {
    match ParsePid(pid)
    case Ok(CanonicalPid(_, _, _, _, _, p, n)) => if p.Some? && n.Some? then RegularExtended else Regular
    case Ok(AnchorPid(_, _)) => Anchor
    case Err(_) => Pending
  }

  function MintPid(role: string, region: char, hostCode: string, activity: string, wave: string)
    : Result<string, PidErr>
  {
    if !IsValidRegion(region) then Err(InvalidRegion)
    else if !IsValidHexN(hostCode, 4) then Err(InvalidHostCode)
    else if !IsValidHexN(activity, 2) then Err(InvalidActivity)
    else if !IsValidHexN(wave, 3) then Err(InvalidWave)
    else Ok(role + MARK + ([region] + hostCode + ("-" + (['A'] + activity + ("-" + (['W'] + wave))))))
  }

  function MintPidExtended(role: string, region: char, hostCode: string, activity: string, wave: string,
                           processTag: string, nonce: string): Result<string, PidErr>
  {
    var s := MintPid(role, region, hostCode, activity, wave);
    if s.Err? then s
    else if !IsValidHexN(processTag, 2) then Err(InvalidProcess)
    else if !IsValidHexN(nonce, 5) then Err(InvalidNonce)
    else Ok(s.value + "-P" + processTag + "-N" + nonce)
  }

  function MintAnchorPid(role: string, date: string): Result<string, PidErr> {
    if !IsDate(date) then Err(MalformedFormat) else Ok(role + MARK + date)
  }

  /** Prints parsed fields with the printer of their form. */
  function Print(p: ParsedPid): Result<string, PidErr> {
    match p
    case CanonicalPid(role, region, host, activity, wave, Some(process), Some(nonce)) =>
      MintPidExtended(role, region, host, activity, wave, process, nonce)
    case CanonicalPid(role, region, host, activity, wave, None, None) => MintPid(role, region, host, activity, wave)
    case CanonicalPid(_, _, _, _, _, _, _) => Err(MalformedFormat)
    case AnchorPid(role, date) => MintAnchorPid(role, date)
  }

  // ----- the role may contain anything: the last marker is the minter's own

  lemma LastMarkIsMinters(role: string, tail: string)
    requires 'I' !in tail
    ensures LastMark(role + MARK + tail) == Some(|role|)
  {
    var s := role + MARK + tail;
    assert MarkAt(s, |role|);
    forall k: nat | |role| < k ensures !MarkAt(s, k) {
      if k + |MARK| <= |s| {
        assert s[k..k + |MARK|][2] == s[k + 2];
        assert s[k + 2] == if k + 2 < |role| + |MARK| then MARK[k + 2 - |role|] else tail[k + 2 - |role| - |MARK|];
      }
    }
  }

  lemma {:induction false} SplitBlock(a: string, rest: string)
    requires '-' !in a
    ensures Split(a + ("-" + rest)) == [a] + Split(rest)
  {
    var s := a + ("-" + rest);
    if a == [] {
      assert s[1..] == rest;
    } else {
      assert s[1..] == a[1..] + ("-" + rest);
      SplitBlock(a[1..], rest);
      assert [a[0]] + a[1..] == a;
    }
  }

  lemma {:induction false} SplitLast(a: string)
    requires '-' !in a
    ensures Split(a) == [a]
  {
    if a != [] {
      SplitLast(a[1..]);
      assert [a[0]] + a[1..] == a;
    }
  }

  lemma HexIsPlain(s: string, n: nat)
    requires IsValidHexN(s, n)
    ensures '-' !in s && 'I' !in s
  {
  }

  lemma ParseMarked(role: string, tail: string)
    requires 'I' !in tail
    ensures ParsePid(role + MARK + tail)
            == if IsDate(tail) then Ok(AnchorPid(role, tail)) else ParseTail(role, Split(tail))
  {
    LastMarkIsMinters(role, tail);
    var s := role + MARK + tail;
    assert s[..|role|] == role && s[|role| + |MARK|..] == tail;
  }

  /** The printers give the parser back its fields, for every role. */
  lemma ParseOfPrint(p: ParsedPid)
    requires Print(p).Ok?
    ensures ParsePid(Print(p).value) == Ok(p)
  {
    match p {
      case CanonicalPid(_, _, _, _, _, Some(_), Some(_)) => ParseOfExtended(p);
      case CanonicalPid(_, _, _, _, _, None, None) => ParseOfShort(p);
      case AnchorPid(role, date) =>
        assert forall i | 0 <= i < 10 :: date[i] != 'I';
        ParseMarked(role, date);
    }
  }

  lemma ParseOfShort(p: ParsedPid)
    requires p.CanonicalPid? && p.processTag == None && p.nonce == None && Print(p).Ok?
    ensures ParsePid(Print(p).value) == Ok(p)
  {
    HexIsPlain(p.hostCode, 4);
    HexIsPlain(p.activity, 2);
    HexIsPlain(p.wave, 3);
    var a, b, c := [p.region] + p.hostCode, ['A'] + p.activity, ['W'] + p.wave;
    var tail := a + ("-" + (b + ("-" + c)));
    assert 'I' !in a && 'I' !in b && 'I' !in c;
    ParseMarked(p.role, tail);
    SplitBlock(a, b + ("-" + c));
    SplitBlock(b, c);
    SplitLast(c);
    assert Split(tail) == [a, b, c];
    FieldsOfParts(p.role, p.region, p.hostCode, p.activity, p.wave, None, None);
  }

  lemma JoinedPlain(x: string, y: string)
    requires 'I' !in x && 'I' !in y
    ensures 'I' !in x + ("-" + y)
  {
  }

  lemma ParseOfExtended(p: ParsedPid)
    requires p.CanonicalPid? && p.processTag.Some? && p.nonce.Some? && Print(p).Ok?
    ensures ParsePid(Print(p).value) == Ok(p)
  {
    HexIsPlain(p.hostCode, 4);
    HexIsPlain(p.activity, 2);
    HexIsPlain(p.wave, 3);
    HexIsPlain(p.processTag.value, 2);
    HexIsPlain(p.nonce.value, 5);
    var a, b, c := [p.region] + p.hostCode, ['A'] + p.activity, ['W'] + p.wave;
    var d, e := ['P'] + p.processTag.value, ['N'] + p.nonce.value;
    var tail := FiveBlocks(a, b, c, d, e);
    PrintIsFiveBlocks(p);
    SplitFiveBlocks(a, b, c, d, e);
    hide Split, ParsePid, ParseTail, Print, FiveBlocks;
    ParseMarked(p.role, tail);
    assert !IsDate(tail) by { BlocksAreNoDate(a, b, c, d, e); }
    FieldsOfParts(p.role, p.region, p.hostCode, p.activity, p.wave, p.processTag, p.nonce);
  }

  function FiveBlocks(a: string, b: string, c: string, d: string, e: string): string {
    a + ("-" + (b + ("-" + (c + ("-" + (d + ("-" + e)))))))
  }

  lemma PrintIsFiveBlocks(p: ParsedPid)
    requires p.CanonicalPid? && p.processTag.Some? && p.nonce.Some? && Print(p).Ok?
    ensures Print(p).value
            == p.role + MARK + FiveBlocks([p.region] + p.hostCode, ['A'] + p.activity, ['W'] + p.wave,
                                          ['P'] + p.processTag.value, ['N'] + p.nonce.value)
  {
  }

  lemma SplitFiveBlocks(a: string, b: string, c: string, d: string, e: string)
    requires '-' !in a && '-' !in b && '-' !in c && '-' !in d && '-' !in e
    requires 'I' !in a && 'I' !in b && 'I' !in c && 'I' !in d && 'I' !in e
    ensures 'I' !in FiveBlocks(a, b, c, d, e)
    ensures Split(FiveBlocks(a, b, c, d, e)) == [a, b, c] + [d, e]
  {
    hide Split;
    var cs := c + ("-" + (d + ("-" + e)));
    JoinedPlain(d, e);
    JoinedPlain(c, d + ("-" + e));
    JoinedPlain(b, cs);
    JoinedPlain(a, b + ("-" + cs));
    SplitBlock(a, b + ("-" + cs));
    SplitBlock(b, cs);
    SplitBlock(c, d + ("-" + e));
    SplitBlock(d, e);
    SplitLast(e);
  }

  lemma BlocksAreNoDate(a: string, b: string, c: string, d: string, e: string)
    requires |a| == 5 && |b| == 3
    ensures !IsDate(FiveBlocks(a, b, c, d, e))
  {
    assert |FiveBlocks(a, b, c, d, e)| > 10;
  }

  lemma FieldsOfParts(role: string, region: char, host: string, activity: string, wave: string,
                      process: Option<string>, nonce: Option<string>)
    requires IsValidRegion(region) && IsValidHexN(host, 4) && IsValidHexN(activity, 2) && IsValidHexN(wave, 3)
    requires process.Some? <==> nonce.Some?
    requires process.Some? ==> IsValidHexN(process.value, 2) && IsValidHexN(nonce.value, 5)
    ensures var parts := [[region] + host, ['A'] + activity, ['W'] + wave]
                         + if process.Some? then [['P'] + process.value, ['N'] + nonce.value] else [];
            ParseTail(role, parts) == Ok(CanonicalPid(role, region, host, activity, wave, process, nonce))
  {
    assert ([region] + host)[1..] == host && (['A'] + activity)[1..] == activity && (['W'] + wave)[1..] == wave;
    if process.Some? {
      assert (['P'] + process.value)[1..] == process.value && (['N'] + nonce.value)[1..] == nonce.value;
    }
  }

  // ----- and back

  function Join(parts: seq<string>): string
    requires parts != []
  {
    if |parts| == 1 then parts[0] else parts[0] + ("-" + Join(parts[1..]))
  }

  lemma {:induction false} JoinOfSplit(s: string)
    ensures Join(Split(s)) == s
  {
    if s != [] {
      var rest := Split(s[1..]);
      JoinOfSplit(s[1..]);
      if s[0] == '-' {
        assert ([""] + rest)[1..] == rest;
      } else {
        assert ([[s[0]] + rest[0]] + rest[1..])[1..] == rest[1..];
      }
    }
  }

  /** Reprinting the fields of any accepted string gives that string. */
  lemma PrintOfParse(pid: string)
    requires ParsePid(pid).Ok?
    ensures Print(ParsePid(pid).value) == Ok(pid)
  {
    var i := LastMark(pid).value;
    var role, tail := pid[..i], pid[i + |MARK|..];
    assert pid == role + MARK + tail by { assert pid[i..i + |MARK|] == MARK; }
    if !IsDate(tail) {
      var parts := Split(tail);
      JoinOfSplit(tail);
      TailOfParts(role, parts);
    }
  }

  lemma TailOfParts(role: string, parts: seq<string>)
    requires parts != [] && ParseTail(role, parts).Ok?
    ensures Print(ParseTail(role, parts).value) == Ok(role + MARK + Join(parts))
  {
    forall s: string, c: char, n | IsBlock(s, c, n) ensures [c] + s[1..] == s {}
    assert [parts[0][0]] + parts[0][1..] == parts[0];
    var a, b, c := parts[0], parts[1], parts[2];
    assert b == ['A'] + b[1..] && c == ['W'] + c[1..];
    if |parts| == 3 {
      assert parts == [a, b, c];
      assert Join(parts[1..]) == b + ("-" + Join([c])) && parts[1..][1..] == [c];
      assert Join(parts) == a + ("-" + (b + ("-" + c)));
    } else {
      var d, e := parts[3], parts[4];
      assert d == ['P'] + d[1..] && e == ['N'] + e[1..];
      assert parts[1..][1..] == parts[2..] && parts[2..][1..] == parts[3..] && parts[3..][1..] == parts[4..] == [e];
      assert Join(parts[3..]) == d + ("-" + e);
      assert Join(parts[2..]) == c + ("-" + (d + ("-" + e)));
      assert Join(parts) == a + ("-" + (b + ("-" + (c + ("-" + (d + ("-" + e)))))));
      assert role + MARK + Join(parts)
          == role + MARK + (a + ("-" + (b + ("-" + c)))) + "-P" + d[1..] + "-N" + e[1..];
    }
  }

  /** A string is accepted exactly when some fields print as it, and then those fields are what it parses to. */
  lemma AcceptedIffPrintable(pid: string)
    ensures ParsePid(pid).Ok? <==> exists p :: Print(p) == Ok(pid)
    ensures forall p, q :: Print(p) == Ok(pid) && Print(q) == Ok(pid) ==> p == q
  {
    if ParsePid(pid).Ok? {
      PrintOfParse(pid);
    }
    forall p | Print(p) == Ok(pid) ensures ParsePid(pid) == Ok(p) {
      ParseOfPrint(p);
    }
  }

  /** No string has both an anchor and a canonical reading, and the subclass names the printer. */
  lemma ReadingsAreExclusive(p: ParsedPid)
    requires Print(p).Ok?
    ensures ClassifySubclass(Print(p).value)
            == if p.AnchorPid? then Anchor else if p.processTag.Some? then RegularExtended else Regular
    ensures forall q :: Print(q) == Print(p) ==> q == p
    ensures ValidatePid(Print(p).value, true).Ok? <==> p.role in KNOWN_ROLES
  {
    ParseOfPrint(p);
    forall q | Print(q) == Print(p) ensures q == p {
      ParseOfPrint(q);
    }
  }

  // ----- which fields are printed, and why a string is refused

  /** Exactly `n` hexadecimal digits, in either case. */
  ghost predicate Hex(s: string, n: nat) {
    |s| == n && forall i | 0 <= i < |s| :: s[i] in "0123456789abcdefABCDEF"
  }

  lemma HexIs(s: string, n: nat)
    ensures IsValidHexN(s, n) <==> Hex(s, n)
  {
    forall i | 0 <= i < |s| ensures IsHexDigit(s[i]) <==> s[i] in "0123456789abcdefABCDEF" {
      HexDigitIs(s[i]);
    }
  }

  lemma HexDigitIs(c: char)
    ensures IsHexDigit(c) <==> c in "0123456789abcdefABCDEF"
  {
    var digits := "0123456789" + "abcdef" + "ABCDEF";
    assert digits == "0123456789abcdefABCDEF";
    DigitIs(c);
    if 'a' <= c <= 'f' {
      assert "abcdef"[c as int - 'a' as int] == c;
    } else if 'A' <= c <= 'F' {
      assert "ABCDEF"[c as int - 'A' as int] == c;
    }
  }

  /** A text of the form `dddd-dd-dd`. */
  ghost predicate Dated(s: string) {
    && |s| == 10 && s[4] == '-' && s[7] == '-'
    && forall i | i in {0, 1, 2, 3, 5, 6, 8, 9} :: s[i] in "0123456789"
  }

  lemma DateIs(s: string)
    ensures IsDate(s) <==> Dated(s)
  {
    if |s| == 10 {
      forall i | 0 <= i < 10 ensures IsDigit(s[i]) <==> s[i] in "0123456789" {
        DigitIs(s[i]);
      }
    }
  }

  lemma DigitIs(c: char)
    ensures IsDigit(c) <==> c in "0123456789"
  {
    if IsDigit(c) {
      assert "0123456789"[c as int - '0' as int] == c;
    }
  }

  /** Which fields have a printed form, and what it is, for every role. */
  lemma PrintedForm(p: ParsedPid)
    ensures Print(p).Ok? <==>
            match p
            case AnchorPid(_, date) => Dated(date)
            case CanonicalPid(_, region, host, activity, wave, process, nonce) =>
              && region in "GHFD" && Hex(host, 4) && Hex(activity, 2) && Hex(wave, 3)
              && (process.Some? <==> nonce.Some?)
              && (process.Some? ==> Hex(process.value, 2) && Hex(nonce.value, 5))
    ensures Print(p).Ok? ==>
              Print(p).value
              == match p
                 case AnchorPid(role, date) => role + "-PID-" + date
                 case CanonicalPid(role, region, host, activity, wave, process, nonce) =>
                   role + "-PID-" + [region] + host + "-A" + activity + "-W" + wave
                   + if process.Some? && nonce.Some? then "-P" + process.value + "-N" + nonce.value else ""
  {
    match p {
      case AnchorPid(_, date) => DateIs(date);
      case CanonicalPid(role, region, host, activity, wave, process, nonce) =>
        PrintedIff(p);
        ShortForm(role, region, host, activity, wave);
        hide Hex;
        if Print(p).Ok? && process.Some? {
          var short := role + "-PID-" + [region] + host + "-A" + activity + "-W" + wave;
          assert short + "-P" + process.value + "-N" + nonce.value == short + ("-P" + process.value + "-N" + nonce.value);
        }
    }
  }

  lemma PrintedIff(p: ParsedPid)
    requires p.CanonicalPid?
    ensures Print(p).Ok? <==>
            && p.region in "GHFD" && Hex(p.hostCode, 4) && Hex(p.activity, 2) && Hex(p.wave, 3)
            && (p.processTag.Some? <==> p.nonce.Some?)
            && (p.processTag.Some? ==> Hex(p.processTag.value, 2) && Hex(p.nonce.value, 5))
  {
    HexIs(p.hostCode, 4);
    HexIs(p.activity, 2);
    HexIs(p.wave, 3);
    RegionIs(p.region);
    if p.processTag.Some? && p.nonce.Some? {
      HexIs(p.processTag.value, 2);
      HexIs(p.nonce.value, 5);
    }
    hide IsValidHexN, IsValidRegion, Hex;
  }

  lemma RegionIs(region: char)
    ensures IsValidRegion(region) <==> region in "GHFD"
  {
    assert "GHFD" == ['G', 'H', 'F', 'D'];
  }

  lemma ShortForm(role: string, region: char, host: string, activity: string, wave: string)
    ensures role + MARK + ([region] + host + ("-" + (['A'] + activity + ("-" + (['W'] + wave)))))
            == role + "-PID-" + [region] + host + "-A" + activity + "-W" + wave
  {
    assert "-A" == "-" + ['A'] && "-W" == "-" + ['W'];
  }

  /** What an error says about the blocks after the marker. */
  ghost predicate BadBlock(parts: seq<string>, e: PidErr)
    requires parts != []
  {
    match e
    case MalformedFormat => |parts| !in {3, 5} || |parts[0]| != 5
    case InvalidRegion => |parts[0]| == 5 && parts[0][0] !in "GHFD"
    case InvalidHostCode => |parts[0]| == 5 && !Hex(parts[0][1..], 4)
    case InvalidActivity => |parts| > 1 && !LetterAndHex(parts[1], 'A', 2)
    case InvalidWave => |parts| > 2 && !LetterAndHex(parts[2], 'W', 3)
    case InvalidProcess => |parts| == 5 && !LetterAndHex(parts[3], 'P', 2)
    case InvalidNonce => |parts| == 5 && !LetterAndHex(parts[4], 'N', 5)
    case UnknownRole => false
  }

  ghost predicate LetterAndHex(s: string, letter: char, n: nat) { |s| == n + 1 && s[0] == letter && Hex(s[1..], n) }

  function Rank(e: PidErr): nat {
    match e
    case MalformedFormat => 0
    case InvalidRegion => 1
    case InvalidHostCode => 2
    case InvalidActivity => 3
    case InvalidWave => 4
    case InvalidProcess => 5
    case InvalidNonce => 6
    case UnknownRole => 7
  }

  lemma BlockIs(s: string, letter: char, n: nat)
    ensures IsBlock(s, letter, n) <==> LetterAndHex(s, letter, n)
  {
    if s != [] {
      HexIs(s[1..], n);
    }
  }

  lemma TailRefusedByFirstBadBlock(role: string, parts: seq<string>, e: PidErr)
    requires parts != []
    ensures ParseTail(role, parts) == Err(e) <==>
            BadBlock(parts, e) && forall other | BadBlock(parts, other) :: Rank(e) <= Rank(other)
  {
    if |parts| in {3, 5} && |parts[0]| == 5 {
      HexIs(parts[0][1..], 4);
      RegionIs(parts[0][0]);
      BlockIs(parts[1], 'A', 2);
      BlockIs(parts[2], 'W', 3);
      if |parts| == 5 {
        BlockIs(parts[3], 'P', 2);
        BlockIs(parts[4], 'N', 5);
      }
    }
    hide IsValidRegion, IsValidHexN, IsBlock, Hex, LetterAndHex;
    var r := ParseTail(role, parts);
    if r.Err? {
      assert BadBlock(parts, r.error);
    }
  }

  /** A string is refused for want of a marker, or else with the first bad block after the last one. */
  lemma RefusedByFirstBadBlock(pid: string, e: PidErr)
    ensures ParsePid(pid) == Err(e) <==>
            if forall k: nat :: !MarkAt(pid, k) then e == MalformedFormat
            else
              && LastMark(pid).Some?
              && var tail := pid[LastMark(pid).value + 5..];
                 var parts := Split(tail);
                 && !Dated(tail)
                 && BadBlock(parts, e) && forall other | BadBlock(parts, other) :: Rank(e) <= Rank(other)
  {
    var mark := LastMark(pid);
    if mark == None {
      assert forall k: nat :: !MarkAt(pid, k);
    } else {
      assert MarkAt(pid, mark.value);
      var role, tail := pid[..mark.value], pid[mark.value + 5..];
      DateIs(tail);
      TailRefusedByFirstBadBlock(role, Split(tail), e);
    }
  }

  /** A strict reading refuses a string that a loose one accepts exactly for its role. */
  lemma StrictIff(pid: string)
    ensures ValidatePid(pid, false).Ok? <==> ParsePid(pid).Ok?
    ensures ValidatePid(pid, true) == Err(UnknownRole) <==> ParsePid(pid).Ok? && ParsePid(pid).value.role !in KNOWN_ROLES
    ensures ClassifySubclass(pid) == Pending <==> ParsePid(pid).Err?
    ensures ParsePid(pid).Err? ==> forall strict :: ValidatePid(pid, strict) == Err(ParsePid(pid).error)
  {
    if ParsePid(pid) == Err(UnknownRole) {
      RefusedByFirstBadBlock(pid, UnknownRole);
    }
  }
}
