/** The text of a stop request: its printer and parser in gui/shutdown_flag.py:103-196, and the engine's
    own parser in cpp/include/xop/util/shutdown_flag.hpp:94-180, which the first promises to mirror.
    Both work on characters; the engine's three-byte BOM is the one character U+FEFF. */
module ShutdownRequest {
  import opened Wrappers
  import opened Text

  const MaxPid: nat := 0xFFFF_FFFF
  const MaxBytes: nat := 4096
  /** Python refuses to convert longer digit strings. */
  const MaxIntDigits: nat := 4300

  const PidKey: string := "pid="
  const RequesterKey: string := "requested_by_pid="
  const OffersKey: string := "offers="
  const FormatLine: string := "xop-shutdown-request v1"
  const Bom: char := '\U{FEFF}'

  datatype Kind = Unaddressed | Addressed(pid: nat) | Malformed

  datatype Policy = Cancel | Keep

  datatype Offers = Unspecified | Says(policy: Policy) | Unrecognised

  datatype Parsed = Parsed(kind: Kind, requester: Option<nat>, offers: Offers)

  // ---------------------------------------------------------------- values

  predicate IsBlank(c: char) {
    c == ' ' || c == '\t'
  }

  function TrimFront(s: string): string {
    if |s| > 0 && IsBlank(s[0]) then TrimFront(s[1..]) else s
  }

  function TrimBack(s: string): string {
    if |s| > 0 && IsBlank(s[|s| - 1]) then TrimBack(s[..|s| - 1]) else s
  }

  function Trim(s: string): string {
    TrimBack(TrimFront(s))
  }

  predicate NamesProcess(s: string) {
    |s| > 0 && AllDigits(s) && 1 <= Value(s) <= MaxPid
  }

  /** _decimal_pid. */
  function DecimalPid(value: string): Option<nat> {
    var v := Trim(value);
    if |v| == 0 || !AllDigits(v) then None
    else if |v| > MaxIntDigits then None
    else if 1 <= Value(v) <= MaxPid then Some(Value(v)) else None
  }

  predicate IsAscii(s: string) {
    forall i :: 0 <= i < |s| ==> s[i] as int < 128
  }

  /** parse_policy: a non-ASCII value is refused before it is lowered. */
  function PolicyOf(value: string): Option<Policy> {
    var v := Trim(value);
    if !IsAscii(v) then None
    else if Lower(v) == "cancel" then Some(Cancel)
    else if Lower(v) == "keep" then Some(Keep)
    else None
  }

  // ---------------------------------------------------------------- lines

  function NewlineAt(text: string): (i: nat)
    ensures i <= |text|
    ensures i < |text| ==> text[i] == '\n'
    ensures forall k :: 0 <= k < i ==> text[k] != '\n'
  {
    if |text| == 0 || text[0] == '\n' then 0 else 1 + NewlineAt(text[1..])
  }

  /** text.split("\n"). */
  function Split(text: string): (pieces: seq<string>)
    ensures |pieces| > 0
    decreases |text|
  {
    var i := NewlineAt(text);
    if i == |text| then [text] else [text[..i]] + Split(text[i + 1..])
  }

  /** Python's lines: the text after a final newline is not one. */
  function Lines(text: string): seq<string> {
    DropEmptyTail(Split(text))
  }

  /** The engine's lines: cut one off while anything is left. */
  function CutLines(text: string): seq<string>
    decreases |text|
  {
    if |text| == 0 then []
    else
      var i := NewlineAt(text);
      if i == |text| then [text] else [text[..i]] + CutLines(text[i + 1..])
  }

  function DropEmptyTail(pieces: seq<string>): seq<string>
    requires |pieces| > 0
  {
    if pieces[|pieces| - 1] == "" then pieces[..|pieces| - 1] else pieces
  }

  lemma DropEmptyTailCons(first: string, pieces: seq<string>)
    requires |pieces| > 0
    ensures DropEmptyTail([first] + pieces) == [first] + DropEmptyTail(pieces)
  {
    var all := [first] + pieces;
    assert all[|all| - 1] == pieces[|pieces| - 1];
    assert all[..|all| - 1] == [first] + pieces[..|pieces| - 1];
  }

  lemma {:induction false} LinesAreCut(text: string)
    ensures Lines(text) == CutLines(text)
    decreases |text|
  {
    hide DropEmptyTail;
    var i := NewlineAt(text);
    if i < |text| {
      LinesAreCut(text[i + 1..]);
      DropEmptyTailCons(text[..i], Split(text[i + 1..]));
    } else {
      OnePiece(text);
    }
  }

  lemma OnePiece(text: string)
    ensures DropEmptyTail([text]) == if text == "" then [] else [text]
  {
  }

  function StripCr(line: string): string {
    if |line| > 0 && line[|line| - 1] == '\r' then line[..|line| - 1] else line
  }

  function DropBom(text: string): string {
    if |text| > 0 && text[0] == Bom then text[1..] else text
  }

  function StripAll(lines: seq<string>): (out: seq<string>)
    ensures |out| == |lines|
  {
    seq(|lines|, i requires 0 <= i < |lines| => StripCr(lines[i]))
  }

  function CleanLines(text: string): seq<string> {
    StripAll(Lines(DropBom(text)))
  }

  // ---------------------------------------------------------------- the rule

  /** The values of the lines that start, at column 0, with the key. */
  function ValuesOf(lines: seq<string>, key: string): seq<string> {
    if |lines| == 0 then []
    else
      var last := lines[|lines| - 1];
      if key <= last then ValuesOf(lines[..|lines| - 1], key) + [last[|key|..]]
      else ValuesOf(lines[..|lines| - 1], key)
  }

  /** No pid line: unaddressed. Exactly one, naming a process: addressed. Anything else: malformed. */
  function AddressOf(pids: seq<string>): Kind {
    if |pids| == 0 then Unaddressed
    else if |pids| == 1 && DecimalPid(pids[0]).Some? then Addressed(DecimalPid(pids[0]).value)
    else Malformed
  }

  function OffersOf(values: seq<string>): Offers {
    if |values| == 0 then Unspecified
    else if |values| == 1 && PolicyOf(values[0]).Some? then Says(PolicyOf(values[0]).value)
    else Unrecognised
  }

  /** What a request says: the declarative reading of the format. */
  function ReadLines(lines: seq<string>): Parsed {
    var kind := AddressOf(ValuesOf(lines, PidKey));
    var requesters := ValuesOf(lines, RequesterKey);
    match kind
    case Malformed => Parsed(Malformed, None, Unspecified)
    case Unaddressed => Parsed(kind, None, OffersOf(ValuesOf(lines, OffersKey)))
    case Addressed(_) =>
      Parsed(kind, if |requesters| == 1 then DecimalPid(requesters[0]) else None,
             OffersOf(ValuesOf(lines, OffersKey)))
  }

  function Read(text: string): Parsed {
    ReadLines(CleanLines(text))
  }

  lemma KeysDiffer(line: string)
    ensures OffersKey <= line ==> !(PidKey <= line) && !(RequesterKey <= line)
    ensures RequesterKey <= line ==> !(PidKey <= line)
  {
    if OffersKey <= line {
      assert line[0] == OffersKey[0];
    }
    if RequesterKey <= line {
      assert line[0] == RequesterKey[0];
    }
    if PidKey <= line {
      assert line[0] == PidKey[0];
    }
  }

  lemma ValuesSnoc(lines: seq<string>, line: string, key: string)
    ensures ValuesOf(lines + [line], key)
         == if key <= line then ValuesOf(lines, key) + [line[|key|..]] else ValuesOf(lines, key)
  {
    assert (lines + [line])[..|lines|] == lines;
  }

  lemma {:induction false} ValuesGrow(lines: seq<string>, i: nat, key: string)
    requires i <= |lines|
    ensures ValuesOf(lines[..i], key) <= ValuesOf(lines, key)
    decreases |lines| - i
  {
    if i == |lines| {
      assert lines[..i] == lines;
    } else {
      ValuesSnoc(lines[..i], lines[i], key);
      assert lines[..i + 1] == lines[..i] + [lines[i]];
      ValuesGrow(lines, i + 1, key);
    }
  }

  /** The variables of the parsing loop after the given lines. */
  datatype Scan = Scan(seenPid: bool, target: nat, requesters: seq<Option<nat>>, offers: Offers)

  function DecodeAll(values: seq<string>): seq<Option<nat>> {
    seq(|values|, i requires 0 <= i < |values| => DecimalPid(values[i]))
  }

  ghost predicate Scanned(lines: seq<string>, s: Scan) {
    && AddressOf(ValuesOf(lines, PidKey)) == (if s.seenPid then Addressed(s.target) else Unaddressed)
    && s.requesters == DecodeAll(ValuesOf(lines, RequesterKey))
    && s.offers == OffersOf(ValuesOf(lines, OffersKey))
  }

  /** Nothing repairs a malformed address. */
  lemma MalformedStays(lines: seq<string>, i: nat)
    requires i <= |lines| && AddressOf(ValuesOf(lines[..i], PidKey)).Malformed?
    ensures AddressOf(ValuesOf(lines, PidKey)).Malformed?
  {
    hide ValuesOf, DecimalPid;
    ValuesGrow(lines, i, PidKey);
  }

  /** The loop body: None where the source returns MALFORMED at once. */
  method ScanLine(line: string, s: Scan, ghost before: seq<string>) returns (next: Option<Scan>)
    requires Scanned(before, s)
    ensures next.None? ==> AddressOf(ValuesOf(before + [line], PidKey)).Malformed?
    ensures next.Some? ==> Scanned(before + [line], next.value)
  {
    ValuesSnoc(before, line, RequesterKey);
    ValuesSnoc(before, line, OffersKey);
    ValuesSnoc(before, line, PidKey);
    KeysDiffer(line);
    hide ValuesOf, DecimalPid, PolicyOf;
    var requesters, offers := s.requesters, s.offers;
    if RequesterKey <= line {
      requesters := requesters + [DecimalPid(line[|RequesterKey|..])];
    }
    assert requesters == DecodeAll(ValuesOf(before + [line], RequesterKey));
    if OffersKey <= line {
      if offers == Unspecified {
        var policy := PolicyOf(line[|OffersKey|..]);
        offers := if policy.Some? then Says(policy.value) else Unrecognised;
      } else {
        offers := Unrecognised;
      }
      return Some(Scan(s.seenPid, s.target, requesters, offers));
    }
    if !(PidKey <= line) {
      return Some(Scan(s.seenPid, s.target, requesters, offers));
    }
    var value := line[|PidKey|..];
    if s.seenPid {
      return None;
    }
    var pid := DecimalPid(value);
    if pid.None? {
      return None;
    }
    return Some(Scan(true, pid.value, requesters, offers));
  }

  /** parse_shutdown_request: one pass, stopping at the first pid line that cannot be meant. It reads
      exactly what the declarative rule says. */
  method ParseShutdownRequest(text: string) returns (r: Parsed)
    ensures r == Read(text)
  {
    hide ValuesOf, DecimalPid, PolicyOf, Lines, Scanned, AddressOf, OffersOf, ReadLines;
    var lines := Lines(DropBom(text));
    ghost var clean := CleanLines(text);
    var s := Scan(false, 0, [], Unspecified);
    ScannedNothing();
    assert clean[..0] == [];
    for i := 0 to |lines|
      invariant Scanned(clean[..i], s)
    {
      assert clean[..i + 1] == clean[..i] + [clean[i]];
      var next := ScanLine(StripCr(lines[i]), s, clean[..i]);
      if next.None? {
        MalformedStays(clean, i + 1);
        MalformedReads(clean);
        return Parsed(Malformed, None, Unspecified);
      }
      s := next.value;
    }
    assert clean[..|lines|] == clean;
    ScannedReads(clean, s);
    var requester := if |s.requesters| == 1 then s.requesters[0] else None;
    if s.seenPid {
      return Parsed(Addressed(s.target), requester, s.offers);
    }
    return Parsed(Unaddressed, None, s.offers);
  }

  lemma ScannedNothing()
    ensures Scanned([], Scan(false, 0, [], Unspecified))
  {
  }

  lemma MalformedReads(lines: seq<string>)
    requires AddressOf(ValuesOf(lines, PidKey)).Malformed?
    ensures ReadLines(lines) == Parsed(Malformed, None, Unspecified)
  {
  }

  /** The loop's variables at the end are what the rule reads. */
  lemma ScannedReads(lines: seq<string>, s: Scan)
    requires Scanned(lines, s)
    ensures ReadLines(lines)
         == if s.seenPid
            then Parsed(Addressed(s.target), if |s.requesters| == 1 then s.requesters[0] else None, s.offers)
            else Parsed(Unaddressed, None, s.offers)
  {
    hide ValuesOf, DecimalPid, PolicyOf;
  }

  // ---------------------------------------------------------------- the engine's parser

  /** The engine reads the same lines with its own number rule: no digit limit. */
  function EngineAddressOf(pids: seq<string>): Kind {
    if |pids| == 0 then Unaddressed
    else if |pids| == 1 && NamesProcess(Trim(pids[0])) then Addressed(Value(Trim(pids[0])))
    else Malformed
  }

  function EngineRead(text: string): Parsed {
    var lines := StripAll(CutLines(DropBom(text)));
    var kind := EngineAddressOf(ValuesOf(lines, PidKey));
    Parsed(kind, None, if kind.Malformed? then Unspecified else OffersOf(ValuesOf(lines, OffersKey)))
  }

  lemma DigitsSnoc(s: string, i: nat)
    requires i < |s| && AllDigits(s[..i]) && IsDigit(s[i])
    ensures AllDigits(s[..i + 1]) && Value(s[..i + 1]) == 10 * Value(s[..i]) + DigitValue(s[i])
  {
    assert s[..i + 1][..i] == s[..i];
  }

  lemma {:induction false} ValueGrows(s: string, i: nat)
    requires i <= |s| && AllDigits(s)
    ensures Value(s[..i]) <= Value(s)
    decreases |s| - i
  {
    if i == |s| {
      assert s[..i] == s;
    } else {
      DigitsSnoc(s, i);
      ValueGrows(s, i + 1);
    }
  }

  /** The digit loop: it gives up as soon as the accumulator leaves the range, which no further digit
      can undo. */
  method EnginePid(value: string) returns (pid: Option<nat>)
    ensures pid == if NamesProcess(Trim(value)) then Some(Value(Trim(value))) else None
  {
    var v := Trim(value);
    if |v| == 0 {
      return None;
    }
    var acc: nat := 0;
    for i := 0 to |v|
      invariant AllDigits(v[..i]) && acc == Value(v[..i]) <= MaxPid
    {
      if !IsDigit(v[i]) {
        return None;
      }
      DigitsSnoc(v, i);
      acc := acc * 10 + DigitValue(v[i]);
      if acc > MaxPid {
        if AllDigits(v) {
          ValueGrows(v, i + 1);
        }
        return None;
      }
    }
    assert v[..|v|] == v;
    return if acc == 0 then None else Some(acc);
  }

  /** ascii_iequals against a lower-case word. */
  predicate EqualsIgnoringCase(s: string, word: string) {
    |s| == |word| && forall i :: 0 <= i < |s| ==> LowerChar(s[i]) == word[i]
  }

  lemma CaseRulesAgree(s: string, word: string)
    requires IsAscii(word)
    ensures EqualsIgnoringCase(s, word) <==> IsAscii(s) && Lower(s) == word
  {
    if EqualsIgnoringCase(s, word) {
      forall i | 0 <= i < |s|
        ensures s[i] as int < 128
      {
        assert LowerChar(s[i]) == word[i];
      }
      assert Lower(s) == word;
    } else if IsAscii(s) && Lower(s) == word {
      forall i | 0 <= i < |s|
        ensures LowerChar(s[i]) == word[i]
      {
        assert Lower(s)[i] == word[i];
      }
    }
  }

  method EngineOffers(value: string) returns (offers: Offers)
    ensures offers == if PolicyOf(value).Some? then Says(PolicyOf(value).value) else Unrecognised
  {
    var v := Trim(value);
    CaseRulesAgree(v, "cancel");
    CaseRulesAgree(v, "keep");
    if EqualsIgnoringCase(v, "cancel") {
      return Says(Cancel);
    }
    if EqualsIgnoringCase(v, "keep") {
      return Says(Keep);
    }
    return Unrecognised;
  }

  ghost predicate EngineScanned(lines: seq<string>, seenPid: bool, pid: nat, offers: Offers) {
    && EngineAddressOf(ValuesOf(lines, PidKey)) == (if seenPid then Addressed(pid) else Unaddressed)
    && offers == OffersOf(ValuesOf(lines, OffersKey))
  }

  lemma EngineMalformedStays(lines: seq<string>, i: nat)
    requires i <= |lines| && EngineAddressOf(ValuesOf(lines[..i], PidKey)).Malformed?
    ensures EngineAddressOf(ValuesOf(lines, PidKey)).Malformed?
  {
    hide ValuesOf, NamesProcess;
    ValuesGrow(lines, i, PidKey);
  }

  method EngineScanLine(line: string, seenPid: bool, pid: nat, offers: Offers, ghost before: seq<string>)
      returns (malformed: bool, seenPid': bool, pid': nat, offers': Offers)
    requires EngineScanned(before, seenPid, pid, offers)
    ensures malformed ==> EngineAddressOf(ValuesOf(before + [line], PidKey)).Malformed?
    ensures !malformed ==> EngineScanned(before + [line], seenPid', pid', offers')
  {
    ValuesSnoc(before, line, OffersKey);
    ValuesSnoc(before, line, PidKey);
    KeysDiffer(line);
    hide ValuesOf, NamesProcess, PolicyOf, Value;
    malformed, seenPid', pid', offers' := false, seenPid, pid, offers;
    if OffersKey <= line {
      if offers == Unspecified {
        offers' := EngineOffers(line[|OffersKey|..]);
      } else {
        offers' := Unrecognised;
      }
    } else if PidKey <= line {
      if seenPid {
        malformed := true;
        return;
      }
      var value := EnginePid(line[|PidKey|..]);
      if value.None? {
        malformed := true;
        return;
      }
      seenPid', pid' := true, value.value;
    }
  }

  lemma CutFirst(content: string)
    requires |content| > 0
    ensures var i := NewlineAt(content);
            && |CutLines(content)| > 0 && CutLines(content)[0] == content[..i]
            && CutLines(if i == |content| then "" else content[i + 1..]) == CutLines(content)[1..]
  {
  }

  /** parse_shutdown_flag: it consumes the content line by line. */
  method EngineParse(text: string) returns (r: Parsed)
    ensures r == EngineRead(text)
  {
    hide CutLines, ValuesOf, NamesProcess, PolicyOf, Value;
    var content := DropBom(text);
    ghost var clean := StripAll(CutLines(content));
    var seenPid: bool, pid: nat, offers := false, 0, Unspecified;
    ghost var i := 0;
    EngineScannedNothing();
    while |content| > 0
      invariant i <= |clean| && StripAll(CutLines(content)) == clean[i..]
      invariant EngineScanned(clean[..i], seenPid, pid, offers)
      decreases |content|
    {
      var newline := NewlineAt(content);
      CutFirst(content);
      ghost var cut := CutLines(content);
      var raw := content[..newline];
      content := if newline == |content| then "" else content[newline + 1..];
      var line := StripCr(raw);
      assert line == StripAll(cut)[0] == clean[i..][0];
      assert StripAll(cut[1..]) == StripAll(cut)[1..] == clean[i..][1..];
      assert clean[..i + 1] == clean[..i] + [line];
      var malformed, seen, p, o := EngineScanLine(line, seenPid, pid, offers, clean[..i]);
      i := i + 1;
      if malformed {
        EngineMalformedStays(clean, i);
        return Parsed(Malformed, None, Unspecified);
      }
      seenPid, pid, offers := seen, p, o;
    }
    CutNothing();
    assert clean[..i] == clean;
    if seenPid {
      return Parsed(Addressed(pid), None, offers);
    }
    return Parsed(Unaddressed, None, offers);
  }

  lemma CutNothing()
    ensures CutLines("") == []
  {
  }

  lemma EngineScannedNothing()
    ensures EngineScanned([], false, 0, Unspecified)
  {
  }

  /** The parsers disagree on one family of texts only: a single pid line whose number is in range but
      is written with more digits than Python converts. */
  ghost predicate OverlongPid(text: string) {
    var pids := ValuesOf(CleanLines(text), PidKey);
    |pids| == 1 && |Trim(pids[0])| > MaxIntDigits && NamesProcess(Trim(pids[0]))
  }

  /** The engine gives the same verdict on who is addressed, and on the offers, exactly outside that
      family. */
  lemma ParsersAgreeIff(text: string)
    ensures (Read(text).kind == EngineRead(text).kind && Read(text).offers == EngineRead(text).offers)
       <==> !OverlongPid(text)
  {
    LinesAreCut(DropBom(text));
  }

  lemma {:induction false} ZerosAreWorthNothing(s: string, k: nat)
    requires |s| == k + 1 && s[k] == '1' && forall i :: 0 <= i < k ==> s[i] == '0'
    ensures AllDigits(s) && Value(s) == 1
  {
    LeadingZeros(s[..k]);
  }

  lemma {:induction false} LeadingZeros(s: string)
    requires forall i :: 0 <= i < |s| ==> s[i] == '0'
    ensures AllDigits(s) && Value(s) == 0
  {
    if |s| > 0 {
      LeadingZeros(s[..|s| - 1]);
    }
  }

  /** The family is not empty: pid 1 behind 4300 zeros. */
  lemma OverlongPidExists()
    ensures exists text :: OverlongPid(text)
  {
    var number := seq(MaxIntDigits, i => '0') + "1";
    ZerosAreWorthNothing(number, MaxIntDigits);
    DigitsTrimToThemselves(number);
    assert number[|number| - 1] == '1';
    OneLineText(number);
    hide Trim, CleanLines, Value;
    var text := PidKey + number + "\n";
    assert ValuesOf(CleanLines(text), PidKey) == [number];
    assert OverlongPid(text);
  }

  /** A text of one pid line. */
  lemma OneLineText(number: string)
    requires AllDigits(number) && |number| > 0
    ensures ValuesOf(CleanLines(PidKey + number + "\n"), PidKey) == [number]
  {
    var line := PidKey + number;
    var text := line + "\n" + "";
    assert text == PidKey + number + "\n";
    DigitsHaveNoNewline(number);
    NoNewline(PidKey, number);
    CutTerminated(line, "");
    CutNothing();
    LinesAreCut(text);
    assert DropBom(text) == text;
    assert line[|line| - 1] == number[|number| - 1];
    assert StripAll([line]) == [line];
    hide Lines, CutLines, ValuesOf;
    KeyedLine(PidKey, number, PidKey);
  }

  lemma {:induction false} ValuesFitText(lines: seq<string>, key: string, bound: nat)
    requires forall l :: l in lines ==> |l| <= bound
    ensures forall v :: v in ValuesOf(lines, key) ==> |v| <= bound
  {
    if |lines| > 0 {
      ValuesFitText(lines[..|lines| - 1], key, bound);
    }
  }

  lemma {:induction false} CutLinesFit(text: string)
    ensures forall l :: l in CutLines(text) ==> |l| <= |text|
    decreases |text|
  {
    if |text| > 0 && NewlineAt(text) < |text| {
      CutLinesFit(text[NewlineAt(text) + 1..]);
    }
  }

  lemma {:induction false} TrimShortens(s: string)
    ensures |TrimFront(s)| <= |s| && |TrimBack(s)| <= |s|
  {
    if |s| > 0 {
      TrimShortens(s[1..]);
      TrimShortens(s[..|s| - 1]);
    }
  }

  /** Neither side ever reads more than MaxBytes of a flag, so on every flag they agree. */
  lemma ParsersAgreeOnFlags(text: string)
    requires |text| <= MaxBytes
    ensures Read(text).kind == EngineRead(text).kind && Read(text).offers == EngineRead(text).offers
  {
    ParsersAgreeIff(text);
    LinesAreCut(DropBom(text));
    CutLinesFit(DropBom(text));
    var lines := CleanLines(text);
    forall l | l in lines
      ensures |l| <= MaxBytes
    {
      var i :| 0 <= i < |lines| && lines[i] == l;
      assert CutLines(DropBom(text))[i] in CutLines(DropBom(text));
    }
    ValuesFitText(lines, PidKey, MaxBytes);
    var pids := ValuesOf(lines, PidKey);
    if |pids| == 1 {
      TrimShortens(pids[0]);
      TrimShortens(TrimFront(pids[0]));
    }
  }

  // ---------------------------------------------------------------- printing

  function PolicyText(p: Policy): string {
    match p case Cancel => "cancel" case Keep => "keep"
  }

  /** render_shutdown_request: None where it raises. */
  function Render(targetPid: int, requesterPid: nat, writtenAt: string, policy: Option<Policy>): Option<string> {
    if !(1 <= targetPid <= MaxPid) then None
    else
      Some(FormatLine + "\n" + (PidKey + Decimal(targetPid)) + "\n" + (RequesterKey + Decimal(requesterPid)) + "\n"
           + ("written_at=" + writtenAt) + "\n"
           + if policy.Some? then OffersKey + PolicyText(policy.value) + "\n" else "")
  }

  lemma DigitsTrimToThemselves(s: string)
    requires AllDigits(s)
    ensures Trim(s) == s
  {
  }

  lemma {:induction false} DigitsHaveNoNewline(s: string)
    requires AllDigits(s)
    ensures '\n' !in s
  {
  }

  lemma PidRoundTrip(n: nat)
    requires 1 <= n <= MaxPid
    ensures DecimalPid(Decimal(n)) == Some(n)
  {
    DecimalRoundTrip(n);
    DigitsTrimToThemselves(Decimal(n));
    assert MaxPid < Power10(10);
    DecimalIsShort(n, 10);
  }

  /** A terminated line splits off. */
  lemma CutTerminated(line: string, rest: string)
    requires '\n' !in line
    ensures CutLines(line + "\n" + rest) == [line] + CutLines(rest)
  {
    var text := line + "\n" + rest;
    assert text[|line|] == '\n';
    assert forall k :: 0 <= k < |line| ==> text[k] == line[k];
    assert NewlineAt(text) == |line|;
    assert text[..|line|] == line && text[|line| + 1..] == rest;
  }

  lemma PolicyRoundTrip(p: Policy)
    ensures PolicyOf(PolicyText(p)) == Some(p)
  {
    var t := PolicyText(p);
    assert Trim(t) == t;
    assert Lower(t) == t;
  }

  /** The lines a rendered request is made of. */
  function RequestLines(targetPid: nat, requesterPid: nat, writtenAt: string, policy: Option<Policy>): seq<string> {
    [FormatLine, PidKey + Decimal(targetPid), RequesterKey + Decimal(requesterPid), "written_at=" + writtenAt]
    + if policy.Some? then [OffersKey + PolicyText(policy.value)] else []
  }

  lemma NoNewline(a: string, b: string)
    requires '\n' !in a && '\n' !in b
    ensures '\n' !in a + b
  {
  }

  lemma RenderedLines(targetPid: nat, requesterPid: nat, writtenAt: string, policy: Option<Policy>)
    requires 1 <= targetPid <= MaxPid && '\n' !in writtenAt
    ensures CutLines(Render(targetPid, requesterPid, writtenAt, policy).value)
         == RequestLines(targetPid, requesterPid, writtenAt, policy)
  {
    hide CutLines, Decimal;
    var l1, l2 := PidKey + Decimal(targetPid), RequesterKey + Decimal(requesterPid);
    var l3 := "written_at=" + writtenAt;
    var tail := if policy.Some? then OffersKey + PolicyText(policy.value) + "\n" else "";
    DecimalLine(PidKey, targetPid);
    DecimalLine(RequesterKey, requesterPid);
    NoNewline("written_at=", writtenAt);
    CutFour(FormatLine, l1, l2, l3, tail);
    CutNothing();
    if policy.Some? {
      NoNewline(OffersKey, PolicyText(policy.value));
      CutTerminated(OffersKey + PolicyText(policy.value), "");
      assert tail == OffersKey + PolicyText(policy.value) + "\n" + "";
    }
  }

  lemma DecimalLine(key: string, n: nat)
    requires '\n' !in key
    ensures '\n' !in key + Decimal(n)
  {
    DecimalRoundTrip(n);
    DigitsHaveNoNewline(Decimal(n));
  }

  lemma CutFour(l0: string, l1: string, l2: string, l3: string, tail: string)
    requires '\n' !in l0 && '\n' !in l1 && '\n' !in l2 && '\n' !in l3
    ensures CutLines(l0 + "\n" + l1 + "\n" + l2 + "\n" + l3 + "\n" + tail)
         == [l0, l1, l2, l3] + CutLines(tail)
  {
    hide CutLines;
    CutTerminated(l3, tail);
    CutTerminated(l2, l3 + "\n" + tail);
    CutTerminated(l1, l2 + "\n" + (l3 + "\n" + tail));
    CutTerminated(l0, l1 + "\n" + (l2 + "\n" + (l3 + "\n" + tail)));
    assert l0 + "\n" + l1 + "\n" + l2 + "\n" + l3 + "\n" + tail
        == l0 + "\n" + (l1 + "\n" + (l2 + "\n" + (l3 + "\n" + tail)));
  }

  lemma ValuesOfOne(line: string, key: string)
    ensures ValuesOf([line], key) == if key <= line then [line[|key|..]] else []
  {
    ValuesSnoc([], line, key);
    assert [] + [line] == [line];
  }

  lemma {:induction false} ValuesConcat(a: seq<string>, b: seq<string>, key: string)
    ensures ValuesOf(a + b, key) == ValuesOf(a, key) + ValuesOf(b, key)
  {
    if |b| == 0 {
      assert a + b == a;
    } else {
      var front, last := b[..|b| - 1], b[|b| - 1];
      assert b == front + [last];
      assert a + b == (a + front) + [last];
      ValuesSnoc(a + front, last, key);
      ValuesSnoc(front, last, key);
      hide ValuesOf;
      ValuesConcat(a, front, key);
    }
  }

  /** What each key finds in a rendered request; carriage returns in the time stamp do not matter. */
  lemma RequestValues(targetPid: nat, requesterPid: nat, stamp: string, policy: Option<Policy>, lines: seq<string>)
    requires lines == [FormatLine, PidKey + Decimal(targetPid), RequesterKey + Decimal(requesterPid), stamp]
                      + if policy.Some? then [OffersKey + PolicyText(policy.value)] else []
    requires |stamp| >= 10 && stamp[..10] == "written_at"
    ensures ValuesOf(lines, PidKey) == [Decimal(targetPid)]
    ensures ValuesOf(lines, RequesterKey) == [Decimal(requesterPid)]
    ensures ValuesOf(lines, OffersKey) == if policy.Some? then [PolicyText(policy.value)] else []
  {
    hide Decimal;
    var head := [FormatLine, PidKey + Decimal(targetPid), RequesterKey + Decimal(requesterPid), stamp];
    var tail := if policy.Some? then [OffersKey + PolicyText(policy.value)] else [];
    HeadValues(targetPid, requesterPid, stamp, PidKey);
    HeadValues(targetPid, requesterPid, stamp, RequesterKey);
    HeadValues(targetPid, requesterPid, stamp, OffersKey);
    ValuesConcat(head, tail, PidKey);
    ValuesConcat(head, tail, RequesterKey);
    ValuesConcat(head, tail, OffersKey);
    if policy.Some? {
      ValuesOfOne(tail[0], PidKey);
      ValuesOfOne(tail[0], RequesterKey);
      ValuesOfOne(tail[0], OffersKey);
      KeysDiffer(tail[0]);
      assert tail[0][|OffersKey|..] == PolicyText(policy.value);
    }
  }

  lemma FirstCharDecides(line: string, key: string)
    requires |line| > 0 && |key| > 0
    ensures line[0] != key[0] ==> !(key <= line)
  {
  }

  lemma HeadValues(targetPid: nat, requesterPid: nat, stamp: string, key: string)
    requires |stamp| >= 10 && stamp[..10] == "written_at"
    requires key == PidKey || key == RequesterKey || key == OffersKey
    ensures ValuesOf([FormatLine, PidKey + Decimal(targetPid), RequesterKey + Decimal(requesterPid), stamp], key)
         == if key == PidKey then [Decimal(targetPid)]
            else if key == RequesterKey then [Decimal(requesterPid)] else []
  {
    hide Decimal;
    var l1, l2 := PidKey + Decimal(targetPid), RequesterKey + Decimal(requesterPid);
    var lines := [FormatLine, l1, l2, stamp];
    assert lines == [FormatLine] + [l1] + [l2] + [stamp];
    ValuesConcat([FormatLine] + [l1] + [l2], [stamp], key);
    ValuesConcat([FormatLine] + [l1], [l2], key);
    ValuesConcat([FormatLine], [l1], key);
    assert stamp[0] == stamp[..10][0] == 'w';
    OtherLine(FormatLine, key);
    OtherLine(stamp, key);
    KeyedLine(PidKey, Decimal(targetPid), key);
    KeyedLine(RequesterKey, Decimal(requesterPid), key);
    hide ValuesOf;
  }

  lemma OtherLine(line: string, key: string)
    requires |line| > 0 && |key| > 0 && line[0] != key[0]
    ensures ValuesOf([line], key) == []
  {
    FirstCharDecides(line, key);
    ValuesOfOne(line, key);
  }

  lemma KeyedLine(own: string, value: string, key: string)
    requires |own| > 0 && |key| > 0 && (own == key || own[0] != key[0])
    ensures ValuesOf([own + value], key) == if own == key then [value] else []
  {
    if own == key {
      assert key <= own + value && (own + value)[|key|..] == value;
      ValuesOfOne(own + value, key);
    } else {
      OtherLine(own + value, key);
    }
  }

  /** Round trip: parsing a rendered request gives back its PID, its requester and its policy, for
      every PID the format allows. */
  lemma RenderRoundTrip(targetPid: nat, requesterPid: nat, writtenAt: string, policy: Option<Policy>)
    requires 1 <= targetPid <= MaxPid && '\n' !in writtenAt
    ensures Read(Render(targetPid, requesterPid, writtenAt, policy).value)
         == Parsed(Addressed(targetPid),
                   if 1 <= requesterPid <= MaxPid then Some(requesterPid) else None,
                   if policy.Some? then Says(policy.value) else Unspecified)
  {
    hide CutLines, Lines, ValuesOf, Decimal, DecimalPid, PolicyOf;
    var text := Render(targetPid, requesterPid, writtenAt, policy).value;
    assert text[0] == FormatLine[0] == 'x';
    LinesAreCut(text);
    RenderedLines(targetPid, requesterPid, writtenAt, policy);
    CleanRequest(targetPid, requesterPid, writtenAt, policy);
    var lines := CleanLines(text);
    RequestValues(targetPid, requesterPid, lines[3], policy, lines);
    PidRoundTrip(targetPid);
    RequesterRoundTrip(requesterPid);
    if policy.Some? {
      PolicyRoundTrip(policy.value);
    }
  }

  lemma RequesterRoundTrip(n: nat)
    ensures DecimalPid(Decimal(n)) == if 1 <= n <= MaxPid then Some(n) else None
  {
    if 1 <= n <= MaxPid {
      PidRoundTrip(n);
    } else {
      DecimalRoundTrip(n);
      DigitsTrimToThemselves(Decimal(n));
    }
  }

  /** Stripping carriage returns touches at most the time stamp. */
  lemma CleanRequest(targetPid: nat, requesterPid: nat, writtenAt: string, policy: Option<Policy>)
    ensures var lines := StripAll(RequestLines(targetPid, requesterPid, writtenAt, policy));
            && |lines| >= 4 && |lines[3]| >= 10 && lines[3][..10] == "written_at"
            && lines == [FormatLine, PidKey + Decimal(targetPid), RequesterKey + Decimal(requesterPid), lines[3]]
                        + if policy.Some? then [OffersKey + PolicyText(policy.value)] else []
  {
    DecimalRoundTrip(targetPid);
    DecimalRoundTrip(requesterPid);
    hide Decimal;
    var l1, l2 := PidKey + Decimal(targetPid), RequesterKey + Decimal(requesterPid);
    assert l1[|l1| - 1] == Decimal(targetPid)[|Decimal(targetPid)| - 1];
    assert l2[|l2| - 1] == Decimal(requesterPid)[|Decimal(requesterPid)| - 1];
    assert StripCr(l1) == l1 && StripCr(l2) == l2 && StripCr(FormatLine) == FormatLine;
    var stamp := "written_at=" + writtenAt;
    assert stamp[..10] == "written_at";
    assert StripCr(stamp)[..10] == "written_at";
  }

  // ---------------------------------------------------------------- tolerated edits

  /** Text-mode conversion of line ends. */
  function ToCrlf(text: string): string {
    if |text| == 0 then ""
    else if text[0] == '\n' then "\r\n" + ToCrlf(text[1..])
    else [text[0]] + ToCrlf(text[1..])
  }

  lemma {:induction false} CrlfOfLine(line: string, rest: string)
    requires '\n' !in line
    ensures ToCrlf(line + rest) == line + ToCrlf(rest)
  {
    if |line| == 0 {
      assert line + rest == rest;
    } else {
      assert line == [line[0]] + line[1..];
      CrlfOfLine(line[1..], rest);
      assert (line + rest)[1..] == line[1..] + rest;
    }
  }

  lemma CrlfOfTerminated(line: string, rest: string)
    requires '\n' !in line && '\r' !in line
    ensures CutLines(ToCrlf(line + "\n" + rest)) == [line + "\r"] + CutLines(ToCrlf(rest))
    ensures StripCr(line + "\r") == line == StripCr(line)
  {
    assert (line + "\r")[..|line|] == line;
    assert ("\n" + rest)[1..] == rest;
    assert ToCrlf("\n" + rest) == "\r\n" + ToCrlf(rest);
    hide ToCrlf, CutLines;
    CrlfOfLine(line, "\n" + rest);
    assert line + "\n" + rest == line + ("\n" + rest);
    assert line + ("\r\n" + ToCrlf(rest)) == (line + "\r") + "\n" + ToCrlf(rest);
    NoNewline(line, "\r");
    CutTerminated(line + "\r", ToCrlf(rest));
  }

  /** A CR-free text reads the same after LF has become CRLF. */
  lemma {:induction false} CrlfCutsTheSame(text: string)
    requires '\r' !in text
    ensures StripAll(CutLines(ToCrlf(text))) == StripAll(CutLines(text))
    decreases |text|
  {
    hide StripAll, CutLines, ToCrlf, StripCr;
    var i := NewlineAt(text);
    var line := text[..i];
    if i == |text| {
      CrlfOfLine(text, "");
      CrlfOfNothing();
      assert text + "" == text;
    } else {
      var rest := text[i + 1..];
      CrlfCutsTheSame(rest);
      assert text == line + "\n" + rest;
      CrlfOfTerminated(line, rest);
      CutTerminated(line, rest);
      StripAllCons(line + "\r", CutLines(ToCrlf(rest)));
      StripAllCons(line, CutLines(rest));
    }
  }

  lemma CrlfOfNothing()
    ensures ToCrlf("") == ""
  {
  }

  lemma StripAllCons(line: string, lines: seq<string>)
    ensures StripAll([line] + lines) == [StripCr(line)] + StripAll(lines)
  {
  }

  lemma CrlfReadsTheSame(text: string)
    requires '\r' !in text
    ensures Read(ToCrlf(text)) == Read(text)
  {
    hide ReadLines, CutLines, Lines, StripAll;
    if |text| > 0 && text[0] == Bom {
      assert text == [Bom] + text[1..];
      CrlfOfLine([Bom], text[1..]);
      assert ([Bom] + ToCrlf(text[1..]))[1..] == ToCrlf(text[1..]);
      CrlfCutsTheSame(text[1..]);
      LinesAreCut(text[1..]);
      LinesAreCut(ToCrlf(text[1..]));
    } else {
      CrlfCutsTheSame(text);
      LinesAreCut(text);
      LinesAreCut(ToCrlf(text));
      if |text| > 0 {
        assert ToCrlf(text)[0] != Bom;
      }
    }
  }

  /** A leading BOM changes nothing. */
  lemma BomReadsTheSame(text: string)
    requires |text| == 0 || text[0] != Bom
    ensures Read([Bom] + text) == Read(text)
  {
    assert ([Bom] + text)[1..] == text;
  }

  /** An offers line never changes whose request this is, wherever it stands. */
  lemma OffersLineKeepsAddressee(before: seq<string>, line: string, after: seq<string>)
    requires OffersKey <= line
    ensures ReadLines(before + [line] + after).kind == ReadLines(before + after).kind
    ensures ReadLines(before + [line] + after).requester == ReadLines(before + after).requester
  {
    hide DecimalPid, PolicyOf;
    KeysDiffer(line);
    OffersLineAddsNoValue(before, line, after, PidKey);
    OffersLineAddsNoValue(before, line, after, RequesterKey);
    hide ValuesOf;
  }

  lemma OffersLineAddsNoValue(before: seq<string>, line: string, after: seq<string>, key: string)
    requires !(key <= line)
    ensures ValuesOf(before + [line] + after, key) == ValuesOf(before + after, key)
  {
    ValuesConcat(before + [line], after, key);
    ValuesConcat(before, [line], key);
    ValuesConcat(before, after, key);
    ValuesOfOne(line, key);
    hide ValuesOf;
    assert ValuesOf(before, key) + [] == ValuesOf(before, key);
  }
}
