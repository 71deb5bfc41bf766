/** The settings page's three-way merge of per-pair ratio targets (gui/ratio_targets.py:56-290, and the
    rebase after a save at gui/widgets/settings.py:4580-4605). Python's float() is a parameter: a reader
    that yields the finite number a text denotes. Floats are reals. */
module RatioTargets {
  import opened Wrappers
  import opened Text
  import opened SeqFacts

  type Reader = string -> Option<real>

  /** A value of the file: a finite number, a text, a boolean, or something that is no number at all. */
  datatype Raw = Num(x: real) | Str(s: string) | Bool(b: bool) | Junk(tag: nat)

  predicate IsFraction(x: real) {
    0.0 < x < 1.0
  }

  function FractionOf(x: Option<real>): Option<real> {
    if x.Some? && IsFraction(x.value) then x else None
  }

  /** valid_ratio. */
  function ValidRatio(read: Reader, v: Raw): Option<real> {
    match v
    case Num(x) => FractionOf(Some(x))
    case Str(s) => FractionOf(read(s))
    case Bool(_) => None
    case Junk(_) => None
  }

  // ---------------------------------------------------------------- cell texts

  /** str.isspace. */
  predicate IsSpace(c: char) {
    var n := c as int;
    9 <= n <= 13 || 28 <= n <= 32 || n == 0x85 || n == 0xA0 || n == 0x1680 || 0x2000 <= n <= 0x200A
    || n == 0x2028 || n == 0x2029 || n == 0x202F || n == 0x205F || n == 0x3000
  }

  function Strip(s: string): string {
    if |s| > 0 && IsSpace(s[0]) then Strip(s[1..])
    else if |s| > 0 && IsSpace(s[|s| - 1]) then Strip(s[..|s| - 1])
    else s
  }

  function DropPercent(s: string): string {
    if |s| == 0 then "" else (if s[0] == '%' then "" else [s[0]]) + DropPercent(s[1..])
  }

  /** The typed text without blanks around it and without percent signs. */
  function Bare(text: string): string {
    Strip(DropPercent(Strip(text)))
  }

  /** Nearest integer, ties to even. */
  function HalfEven(y: real): int {
    var f := y.Floor;
    if y - f as real < 0.5 then f
    else if y - f as real > 0.5 then f + 1
    else if f % 2 == 0 then f else f + 1
  }

  function TwoDigits(d: nat): string
    requires d < 100
  {
    [Digit(d / 10), Digit(d % 10)]
  }

  /** A number of hundredths with its point. */
  function Fixed2(k: nat): string {
    Decimal(k / 100) + "." + TwoDigits(k % 100)
  }

  function Hundredths(pct: real): (k: nat)
    requires 0.0 <= pct <= 100.0
    ensures k <= 10000
  {
    HalfEven(pct * 100.0)
  }

  /** The ":.2f" of a percentage. */
  function Format2(pct: real): string
    requires 0.0 <= pct <= 100.0
  {
    Fixed2(Hundredths(pct))
  }

  /** format_ratio_pct. */
  function FormatRatioPct(x: Option<real>): string {
    match FractionOf(x) case None => "" case Some(f) => Format2(f * 100.0)
  }

  /** canonical_ratio_text. */
  function CanonicalText(read: Reader, text: string): string {
    var bare := Bare(text);
    if bare == "" then ""
    else match read(bare)
      case None => bare
      case Some(pct) => if 0.0 < pct < 100.0 then Format2(pct) else bare
  }

  /** All that is asked of float(): it reads what ":.2f" prints of a percentage. */
  ghost predicate ReadsNumerals(read: Reader) {
    forall k: nat :: k <= 10000 ==> read(Fixed2(k)) == Some(k as real / 100.0)
  }

  predicate Plain(s: string) {
    forall i :: 0 <= i < |s| ==> IsDigit(s[i]) || s[i] == '.'
  }

  lemma Fixed2IsPlain(k: nat)
    ensures Plain(Fixed2(k)) && |Fixed2(k)| > 0
  {
    DecimalRoundTrip(k / 100);
    hide Decimal;
  }

  lemma {:induction false} PlainHasNoPercent(s: string)
    requires Plain(s)
    ensures DropPercent(s) == s
  {
    if |s| > 0 {
      PlainHasNoPercent(s[1..]);
    }
  }

  lemma PlainIsBare(s: string)
    requires Plain(s)
    ensures Bare(s) == s
  {
    PlainHasNoPercent(s);
    assert Strip(s) == s;
  }

  lemma WholeHundredths(k: nat)
    requires k <= 10000
    ensures Hundredths(k as real / 100.0) == k
  {
    assert k as real / 100.0 * 100.0 == k as real;
  }

  /** What a cell is populated with is never read back as an edit, rounded though it is. */
  lemma FreshTextIsNoEdit(read: Reader, x: Option<real>)
    requires ReadsNumerals(read)
    ensures CanonicalText(read, FormatRatioPct(x)) == FormatRatioPct(x)
  {
    hide Fixed2, Hundredths, Bare;
    if FractionOf(x).None? {
      BlankIsCanonical(read);
    } else {
      PercentIsInside(x.value);
      NumeralIsCanonical(read, Hundredths(x.value * 100.0));
    }
    hide CanonicalText;
  }

  lemma BlankIsCanonical(read: Reader)
    ensures CanonicalText(read, "") == ""
  {
    assert Bare("") == "";
  }

  lemma PercentIsInside(x: real)
    requires IsFraction(x)
    ensures 0.0 < x * 100.0 < 100.0
  {
  }

  /** A numeral of hundredths is its own canonical text, at the ends of the range too. */
  lemma NumeralIsCanonical(read: Reader, k: nat)
    requires ReadsNumerals(read) && k <= 10000
    ensures CanonicalText(read, Fixed2(k)) == Fixed2(k)
  {
    Fixed2IsPlain(k);
    PlainIsBare(Fixed2(k));
    hide Fixed2, Bare;
    assert read(Fixed2(k)) == Some(k as real / 100.0);
    if 0.0 < k as real / 100.0 < 100.0 {
      WholeHundredths(k);
    }
    hide Hundredths;
  }

  // ---------------------------------------------------------------- rows

  datatype Row = Row(name: string, text: string, shown: Option<real>, baseline: Option<real>, sourceName: string)

  /** The page passes what it shows through valid_ratio first. */
  predicate SoundRow(r: Row) {
    r.shown == FractionOf(r.shown)
  }

  datatype Intent = Untouched | Set(x: real) | Clear | Ignore

  /** _row_intent. */
  function RowIntent(read: Reader, r: Row): Intent {
    if CanonicalText(read, r.text) == FormatRatioPct(r.shown) then
      if r.shown == r.baseline then Untouched
      else if r.shown.None? then Clear
      else Set(r.shown.value)
    else
      var bare := Bare(r.text);
      if bare == "" then Clear
      else match read(bare)
        case None => Ignore
        case Some(pct) => if IsFraction(pct / 100.0) then Set(pct / 100.0) else Ignore
  }

  /** Typing a percentage over a shown fraction counts as an edit exactly when the two differ in their
      hundredths of a percent; then the typed number is kept unrounded. */
  lemma TypedEditCountsIff(read: Reader, r: Row, pct: real)
    requires ReadsNumerals(read) && r.shown.Some? && IsFraction(r.shown.value) && r.baseline == r.shown
    requires Bare(r.text) != "" && read(Bare(r.text)) == Some(pct) && 0.0 < pct < 100.0
    ensures RowIntent(read, r) == if Hundredths(pct) == Hundredths(r.shown.value * 100.0) then Untouched
                                  else Set(pct / 100.0)
  {
    var a, b := Hundredths(pct), Hundredths(r.shown.value * 100.0);
    hide Fixed2, Hundredths, Bare;
    if Fixed2(a) == Fixed2(b) {
      assert a as real / 100.0 == b as real / 100.0;
    }
  }

  // ---------------------------------------------------------------- the merge

  type Targets = map<string, Raw>

  function Lookup(m: Targets, name: string): Option<Raw> {
    if name in m then Some(m[name]) else None
  }

  function Names(rows: seq<Row>): set<string> {
    set r | r in rows :: r.name
  }

  /** The entry of a name, if the engine would accept it. */
  function ValidEntry(read: Reader, disk: Targets, name: string): Option<Raw> {
    if name in disk && ValidRatio(read, disk[name]).Some? then Some(disk[name]) else None
  }

  function Effect(read: Reader, disk: Targets, r: Row, was: Option<Raw>): Option<Raw> {
    match RowIntent(read, r)
    case Untouched =>
      if r.sourceName != "" && r.sourceName != r.name && ValidEntry(read, disk, r.sourceName).Some?
      then Some(disk[r.sourceName]) else was
    case Set(x) => Some(Num(x))
    case Clear => None
    case Ignore => was
  }

  /** What a row makes of the entry of a name. */
  function Pass(read: Reader, disk: Targets, r: Row, name: string, was: Option<Raw>): Option<Raw> {
    if r.name == name && name != "" then Effect(read, disk, r, was) else was
  }

  /** One name through all rows. */
  function Through(read: Reader, disk: Targets, rows: seq<Row>, name: string, was: Option<Raw>): Option<Raw> {
    if |rows| == 0 then was
    else Pass(read, disk, rows[|rows| - 1], name, Through(read, disk, rows[..|rows| - 1], name, was))
  }

  predicate Dropped(rows: seq<Row>, populated: seq<string>, name: string) {
    name in populated && name !in Names(rows)
  }

  /** The entry the rows start from. */
  function Start(read: Reader, disk: Targets, rows: seq<Row>, populated: seq<string>, name: string): Option<Raw> {
    if Dropped(rows, populated, name) then None else ValidEntry(read, disk, name)
  }

  /** What the merge makes of one name. */
  function Entry(read: Reader, disk: Targets, rows: seq<Row>, populated: seq<string>, name: string): Option<Raw> {
    Through(read, disk, rows, name, Start(read, disk, rows, populated, name))
  }

  lemma StartSnoc(read: Reader, disk: Targets, rows: seq<Row>, populated: seq<string>, p: string, name: string)
    ensures Start(read, disk, rows, populated + [p], name)
         == if name == p && p !in Names(rows) then None else Start(read, disk, rows, populated, name)
  {
    hide Names, ValidEntry;
  }

  lemma ThroughSnoc(read: Reader, disk: Targets, rows: seq<Row>, r: Row, name: string, was: Option<Raw>)
    ensures Through(read, disk, rows + [r], name, was) == Pass(read, disk, r, name, Through(read, disk, rows, name, was))
  {
    hide Effect;
    assert (rows + [r])[..|rows|] == rows;
  }

  /** The body of the last loop. */
  method ApplyRow(read: Reader, disk: Targets, r: Row, m: Targets) returns (result: Targets)
    ensures forall n :: Lookup(result, n) == Pass(read, disk, r, n, Lookup(m, n))
  {
    hide RowIntent, ValidRatio;
    result := m;
    if r.name == "" {
      return;
    }
    match RowIntent(read, r)
    case Untouched =>
      var source := r.sourceName;
      if source != "" && source != r.name && ValidEntry(read, disk, source).Some? {
        result := result[r.name := disk[source]];
      }
    case Set(x) => result := result[r.name := Num(x)];
    case Clear => result := result - {r.name};
    case Ignore =>
  }

  /** merge_ratio_targets. */
  method MergeRatioTargets(read: Reader, disk: Targets, rows: seq<Row>, populated: seq<string>)
      returns (result: Targets)
    ensures forall n :: Lookup(result, n) == Entry(read, disk, rows, populated, n)
  {
    hide Effect, ValidRatio;
    result := map n | n in disk && ValidRatio(read, disk[n]).Some? :: disk[n];
    var current := Names(rows);
    for i := 0 to |populated|
      invariant forall n :: Lookup(result, n) == Start(read, disk, rows, populated[..i], n)
    {
      assert populated[..i + 1] == populated[..i] + [populated[i]];
      forall n
        ensures Start(read, disk, rows, populated[..i + 1], n)
             == if n == populated[i] && populated[i] !in current then None else Lookup(result, n)
      {
        StartSnoc(read, disk, rows, populated[..i], populated[i], n);
      }
      ghost var previous := result;
      if populated[i] !in current {
        result := result - {populated[i]};
      }
      assert forall n :: Lookup(result, n)
                      == if n == populated[i] && populated[i] !in current then None else Lookup(previous, n);
      hide Lookup, Start;
    }
    assert populated[..|populated|] == populated;
    for i := 0 to |rows|
      invariant forall n :: Lookup(result, n)
                         == Through(read, disk, rows[..i], n, Start(read, disk, rows, populated, n))
    {
      assert rows[..i + 1] == rows[..i] + [rows[i]];
      forall n
        ensures Through(read, disk, rows[..i + 1], n, Start(read, disk, rows, populated, n))
             == Pass(read, disk, rows[i], n, Lookup(result, n))
      {
        ThroughSnoc(read, disk, rows[..i], rows[i], n, Start(read, disk, rows, populated, n));
      }
      result := ApplyRow(read, disk, rows[i], result);
    }
    assert rows[..|rows|] == rows;
  }

  // ---------------------------------------------------------------- what a save does

  lemma {:induction false} ThroughIsValid(read: Reader, disk: Targets, rows: seq<Row>, name: string, was: Option<Raw>)
    requires forall r :: r in rows ==> SoundRow(r)
    requires was.Some? ==> ValidRatio(read, was.value).Some?
    ensures var now := Through(read, disk, rows, name, was);
            now.Some? ==> ValidRatio(read, now.value).Some?
  {
    if |rows| > 0 {
      var r := rows[|rows| - 1];
      assert SoundRow(r);
      ThroughIsValid(read, disk, rows[..|rows| - 1], name, was);
      hide CanonicalText, FormatRatioPct, Bare;
    }
  }

  /** The merge never writes a value the engine refuses, and drops those it finds. */
  lemma OnlyValidEntries(read: Reader, disk: Targets, rows: seq<Row>, populated: seq<string>, name: string)
    requires forall r :: r in rows ==> SoundRow(r)
    ensures var now := Entry(read, disk, rows, populated, name);
            now.Some? ==> ValidRatio(read, now.value).Some?
  {
    hide ValidRatio;
    ThroughIsValid(read, disk, rows, name, Start(read, disk, rows, populated, name));
  }

  lemma {:induction false} ThroughOthers(read: Reader, disk: Targets, rows: seq<Row>, name: string, was: Option<Raw>)
    requires name == "" || name !in Names(rows)
    ensures Through(read, disk, rows, name, was) == was
  {
    if |rows| > 0 {
      assert rows[|rows| - 1] in rows;
      assert forall r :: r in rows[..|rows| - 1] ==> r in rows;
      ThroughOthers(read, disk, rows[..|rows| - 1], name, was);
    }
  }

  /** A name no row carries keeps its valid entry, unless the page had shown it: then its pair is gone. */
  lemma UnnamedEntries(read: Reader, disk: Targets, rows: seq<Row>, populated: seq<string>, name: string)
    requires name !in Names(rows)
    ensures Entry(read, disk, rows, populated, name)
         == if name in populated then None else ValidEntry(read, disk, name)
  {
    ThroughOthers(read, disk, rows, name, Start(read, disk, rows, populated, name));
  }

  /** The only row with its name. */
  predicate Alone(rows: seq<Row>, i: nat) {
    i < |rows| && rows[i].name != "" && forall j :: 0 <= j < |rows| && j != i ==> rows[j].name != rows[i].name
  }

  lemma {:induction false} ThroughOne(read: Reader, disk: Targets, rows: seq<Row>, i: nat, was: Option<Raw>)
    requires Alone(rows, i)
    ensures Through(read, disk, rows, rows[i].name, was) == Effect(read, disk, rows[i], was)
  {
    hide Effect;
    var n := |rows| - 1;
    if i == n {
      ThroughOthers(read, disk, rows[..n], rows[i].name, was);
    } else {
      ThroughOne(read, disk, rows[..n], i, was);
    }
  }

  lemma OneRowDecides(read: Reader, disk: Targets, rows: seq<Row>, populated: seq<string>, i: nat)
    requires Alone(rows, i)
    ensures Entry(read, disk, rows, populated, rows[i].name)
         == Effect(read, disk, rows[i], ValidEntry(read, disk, rows[i].name))
  {
    assert rows[i] in rows;
    ThroughOne(read, disk, rows, i, ValidEntry(read, disk, rows[i].name));
    hide Effect, ValidEntry;
  }

  /** Untouched rows leave the file as it is now, out-of-band writes included, and a renamed one carries its
      old name's value along. */
  lemma UntouchedRowCarries(read: Reader, disk: Targets, rows: seq<Row>, populated: seq<string>, i: nat)
    requires Alone(rows, i) && RowIntent(read, rows[i]).Untouched? && rows[i].sourceName != ""
    ensures var carried := ValidEntry(read, disk, rows[i].sourceName);
            Entry(read, disk, rows, populated, rows[i].name)
            == if carried.Some? then carried else ValidEntry(read, disk, rows[i].name)
  {
    OneRowDecides(read, disk, rows, populated, i);
    hide RowIntent, ValidRatio;
  }

  /** The cell's text reads as a percentage that displays otherwise than what was shown. */
  predicate TypedOver(read: Reader, r: Row, pct: real) {
    && Bare(r.text) != "" && read(Bare(r.text)) == Some(pct)
    && 0.0 < pct < 100.0 && Format2(pct) != FormatRatioPct(r.shown)
  }

  /** Edits are saved: a cleared cell removes its entry, a typed percentage writes that very fraction, and
      a populated value that is not the file's (Load from Editor) is written exactly, not as displayed. */
  lemma EditsAreSaved(read: Reader, disk: Targets, rows: seq<Row>, populated: seq<string>, i: nat)
    requires ReadsNumerals(read) && Alone(rows, i)
    ensures var r, now := rows[i], Entry(read, disk, rows, populated, rows[i].name);
            && (Bare(r.text) == "" && r.shown.Some? && SoundRow(r) ==> now == None)
            && (forall pct :: TypedOver(read, r, pct) ==> now == Some(Num(pct / 100.0)))
            && (r.text == FormatRatioPct(r.shown) && r.shown.Some? && r.shown != r.baseline
                ==> now == Some(Num(r.shown.value)))
  {
    OneRowDecides(read, disk, rows, populated, i);
    FreshTextIsNoEdit(read, rows[i].shown);
    if FractionOf(rows[i].shown).Some? {
      ShownTextIsNotBlank(rows[i].shown);
    }
    hide Entry, ValidEntry, Fixed2, Hundredths, Bare;
  }

  lemma ShownTextIsNotBlank(x: Option<real>)
    requires FractionOf(x).Some?
    ensures FormatRatioPct(x) != ""
  {
    Fixed2IsPlain(Hundredths(x.value * 100.0));
  }

  /** Two pairs that exchanged names have exchanged their values. */
  lemma SwappedNamesSwapValues(read: Reader, disk: Targets, rows: seq<Row>, populated: seq<string>, i: nat, j: nat)
    requires Alone(rows, i) && Alone(rows, j) && i != j
    requires RowIntent(read, rows[i]).Untouched? && RowIntent(read, rows[j]).Untouched?
    requires rows[i].sourceName == rows[j].name && rows[j].sourceName == rows[i].name
    requires ValidEntry(read, disk, rows[i].name).Some? && ValidEntry(read, disk, rows[j].name).Some?
    ensures Entry(read, disk, rows, populated, rows[i].name) == Some(disk[rows[j].name])
    ensures Entry(read, disk, rows, populated, rows[j].name) == Some(disk[rows[i].name])
  {
    UntouchedRowCarries(read, disk, rows, populated, i);
    UntouchedRowCarries(read, disk, rows, populated, j);
  }

  // ---------------------------------------------------------------- saving again

  /** _rebase_ratio_cells: every row shows what was just saved, as its baseline. */
  function Rebased(read: Reader, r: Row, saved: Targets): Row {
    var x := if r.name in saved then ValidRatio(read, saved[r.name]) else None;
    Row(r.name, FormatRatioPct(x), x, x, r.name)
  }

  function RebasedAll(read: Reader, rows: seq<Row>, saved: Targets): seq<Row> {
    seq(|rows|, i requires 0 <= i < |rows| => Rebased(read, rows[i], saved))
  }

  lemma RebasedIsUntouched(read: Reader, r: Row, saved: Targets)
    requires ReadsNumerals(read)
    ensures RowIntent(read, Rebased(read, r, saved)) == Untouched
  {
    var x := Rebased(read, r, saved);
    FreshTextIsNoEdit(read, x.shown);
    hide CanonicalText, FormatRatioPct;
  }

  lemma {:induction false} QuietRowsChangeNothing(read: Reader, disk: Targets, rows: seq<Row>, name: string,
                                                  was: Option<Raw>)
    requires forall r :: r in rows ==> RowIntent(read, r).Untouched? && r.sourceName == r.name
    ensures Through(read, disk, rows, name, was) == was
  {
    hide RowIntent;
    if |rows| > 0 {
      assert rows[|rows| - 1] in rows;
      QuietRowsChangeNothing(read, disk, rows[..|rows| - 1], name, was);
    }
  }

  /** After a save, saving the untouched page again changes no valid entry of the file, whatever was written
      to the file in between; in particular it leaves the saved map as it is. */
  lemma SavingAgainChangesNothing(read: Reader, disk: Targets, rows: seq<Row>, saved: Targets,
                                  populated: seq<string>, name: string)
    requires ReadsNumerals(read) && forall n :: n in populated ==> n in Names(rows)
    ensures Entry(read, disk, RebasedAll(read, rows, saved), populated, name) == ValidEntry(read, disk, name)
  {
    var rebased := RebasedAll(read, rows, saved);
    forall r | r in rebased
      ensures RowIntent(read, r).Untouched? && r.sourceName == r.name
    {
      var i :| 0 <= i < |rebased| && rebased[i] == r;
      RebasedIsUntouched(read, rows[i], saved);
    }
    forall n | n in Names(rows)
      ensures n in Names(rebased)
    {
      var r :| r in rows && r.name == n;
      var i :| 0 <= i < |rows| && rows[i] == r;
      assert rebased[i] in rebased && rebased[i].name == n;
    }
    hide RebasedAll, RowIntent, Names;
    QuietRowsChangeNothing(read, disk, rebased, name, ValidEntry(read, disk, name));
    assert !Dropped(rebased, populated, name);
  }

  // ---------------------------------------------------------------- the audit trail

  datatype Change = Changed(name: string, was: Raw, now: Raw) | Removed(name: string, was: Raw) | Added(name: string, now: Raw)

  predicate IsChange(before: Targets, after: Targets, c: Change) {
    match c
    case Changed(n, was, now) => n in before && n in after && before[n] == was && after[n] == now && was != now
    case Removed(n, was) => n in before && n !in after && before[n] == was
    case Added(n, now) => n !in before && n in after && after[n] == now
  }

  function Patched(m: Targets, lines: seq<Change>): Targets {
    if |lines| == 0 then m
    else Applied(Patched(m, lines[..|lines| - 1]), lines[|lines| - 1])
  }

  function Applied(m: Targets, c: Change): Targets {
    match c
    case Changed(n, _, now) => m[n := now]
    case Removed(n, _) => m - {n}
    case Added(n, now) => m[n := now]
  }

  lemma PatchedSnoc(m: Targets, lines: seq<Change>, c: Change)
    ensures Patched(m, lines + [c])
         == Applied(Patched(m, lines), c)
  {
    assert (lines + [c])[..|lines|] == lines;
  }

  /** describe_ratio_target_changes: the lines are true, and together they are the whole change. */
  method DescribeChanges(before: Targets, after: Targets) returns (lines: seq<Change>)
    ensures Patched(before, lines) == after
    ensures forall c :: c in lines ==> IsChange(before, after, c)
    ensures |lines| == 0 <==> before == after
  {
    hide Patched;
    lines := [];
    assert Patched(before, lines) == before by {
      PatchedNothing(before);
    }
    var todo := before.Keys;
    while todo != {}
      invariant todo <= before.Keys
      invariant forall c :: c in lines ==> IsChange(before, after, c)
      invariant forall n :: Lookup(Patched(before, lines), n)
                         == if n in before && n !in todo then Lookup(after, n) else Lookup(before, n)
    {
      var n :| n in todo;
      todo := todo - {n};
      if n !in after {
        PatchedSnoc(before, lines, Removed(n, before[n]));
        lines := lines + [Removed(n, before[n])];
      } else if after[n] != before[n] {
        PatchedSnoc(before, lines, Changed(n, before[n], after[n]));
        lines := lines + [Changed(n, before[n], after[n])];
      }
    }
    todo := after.Keys;
    while todo != {}
      invariant todo <= after.Keys
      invariant forall c :: c in lines ==> IsChange(before, after, c)
      invariant forall n :: Lookup(Patched(before, lines), n)
                         == if n in before || n !in todo then Lookup(after, n) else None
    {
      var n :| n in todo;
      todo := todo - {n};
      if n !in before {
        PatchedSnoc(before, lines, Added(n, after[n]));
        lines := lines + [Added(n, after[n])];
      }
    }
    SameLookups(Patched(before, lines), after);
    PatchedNothing(before);
    assert |lines| > 0 ==> IsChange(before, after, lines[0]);
  }

  lemma PatchedNothing(m: Targets)
    ensures Patched(m, []) == m
  {
  }

  lemma SameLookups(a: Targets, b: Targets)
    requires forall n :: Lookup(a, n) == Lookup(b, n)
    ensures a == b
  {
    forall n
      ensures n in a <==> n in b
      ensures n in a ==> a[n] == b[n]
    {
      assert Lookup(a, n) == Lookup(b, n);
    }
  }

  // ---------------------------------------------------------------- conflicts

  function NowValid(read: Reader, disk: Targets, name: string): Option<real> {
    if name in disk then ValidRatio(read, disk[name]) else None
  }

  /** The fraction an edit leaves behind; None when it clears. */
  function Written(i: Intent): Option<real> {
    match i case Set(x) => Some(x) case _ => None
  }

  /** The report has a line for this row. */
  predicate Conflicts(read: Reader, disk: Targets, r: Row) {
    var intent := RowIntent(read, r);
    var now := NowValid(read, disk, r.sourceName);
    r.name != "" && r.sourceName != "" && (intent.Set? || intent.Clear?)
    && now != r.baseline && now != Written(intent)
  }

  function ConflictOnes(read: Reader, disk: Targets): Row -> bool {
    r => Conflicts(read, disk, r)
  }

  /** describe_ratio_target_conflicts: the rows it has a line for, in order. A line names the value the file
      holds under the name the row was loaded from. */
  method DescribeConflicts(read: Reader, disk: Targets, rows: seq<Row>) returns (lines: seq<Row>)
    ensures forall r :: r in lines <==> r in rows && Conflicts(read, disk, r)
    ensures lines == Filter(rows, ConflictOnes(read, disk))
  {
    hide RowIntent, ValidRatio, Filter;
    lines := [];
    FilterMembers(rows, ConflictOnes(read, disk));
    FilterNone(rows[..0], ConflictOnes(read, disk));
    for i := 0 to |rows|
      invariant lines == Filter(rows[..i], ConflictOnes(read, disk))
    {
      var row := rows[i];
      assert rows[..i + 1] == rows[..i] + [row];
      FilterSnoc(rows[..i], row, ConflictOnes(read, disk));
      if row.name == "" || row.sourceName == "" {
        continue;
      }
      var intent := RowIntent(read, row);
      if !(intent.Set? || intent.Clear?) {
        continue;
      }
      var now := NowValid(read, disk, row.sourceName);
      if now == row.baseline {
        continue;
      }
      if now == Written(intent) {
        continue;
      }
      lines := lines + [row];
    }
    assert rows[..|rows|] == rows;
  }

  function ValueOf(read: Reader, entry: Option<Raw>): Option<real> {
    match entry case Some(v) => ValidRatio(read, v) case None => None
  }

  /** The valid fraction the merge leaves under a name. */
  function MergedValid(read: Reader, disk: Targets, rows: seq<Row>, populated: seq<string>, name: string)
      : Option<real>
  {
    ValueOf(read, Entry(read, disk, rows, populated, name))
  }

  // ---------------------------------------------------------------- what the merge does to a value, from its inputs

  /** A row that decides the entry of its name: an edit, or a rename that carries a value along. */
  predicate Active(read: Reader, disk: Targets, r: Row) {
    match RowIntent(read, r)
    case Untouched => r.sourceName != "" && r.sourceName != r.name && NowValid(read, disk, r.sourceName).Some?
    case Ignore => false
    case _ => true
  }

  /** The fraction such a row leaves. */
  function Target(read: Reader, disk: Targets, r: Row): Option<real> {
    if RowIntent(read, r).Untouched? then NowValid(read, disk, r.sourceName) else Written(RowIntent(read, r))
  }

  /** The last such row of a name. */
  function LastActive(read: Reader, disk: Targets, rows: seq<Row>, name: string): (last: Option<Row>)
    ensures last.Some? ==> last.value in rows && last.value.name == name && Active(read, disk, last.value)
    ensures last.None? ==> forall r :: r in rows && r.name == name ==> !Active(read, disk, r)
  {
    if |rows| == 0 then None
    else
      var r := rows[|rows| - 1];
      assert rows == rows[..|rows| - 1] + [r];
      if r.name == name && Active(read, disk, r) then Some(r) else LastActive(read, disk, rows[..|rows| - 1], name)
  }

  lemma PassLeaves(read: Reader, disk: Targets, r: Row, name: string, was: Option<Raw>)
    requires SoundRow(r)
    ensures ValueOf(read, Pass(read, disk, r, name, was))
         == if name != "" && r.name == name && Active(read, disk, r) then Target(read, disk, r) else ValueOf(read, was)
  {
    SetsAreFractions(read, r);
    hide RowIntent;
  }

  lemma {:induction false} ThroughLeaves(read: Reader, disk: Targets, rows: seq<Row>, name: string, was: Option<Raw>)
    requires name != "" && forall r :: r in rows ==> SoundRow(r)
    ensures var last := LastActive(read, disk, rows, name);
            ValueOf(read, Through(read, disk, rows, name, was))
            == if last.Some? then Target(read, disk, last.value) else ValueOf(read, was)
  {
    hide Pass, Active, Target, ValueOf;
    if |rows| > 0 {
      var before, r := rows[..|rows| - 1], rows[|rows| - 1];
      assert r in rows && forall x :: x in before ==> x in rows;
      ThroughLeaves(read, disk, before, name, was);
      PassLeaves(read, disk, r, name, Through(read, disk, before, name, was));
    }
  }

  /** The value the merge leaves under any name: the last deciding row's, if there is one; otherwise the
      file's, unless the page had shown the name and no row carries it any more. */
  lemma MergedValidIs(read: Reader, disk: Targets, rows: seq<Row>, populated: seq<string>, name: string)
    requires forall r :: r in rows ==> SoundRow(r)
    ensures var last := LastActive(read, disk, rows, name);
            MergedValid(read, disk, rows, populated, name)
            == if name != "" && last.Some? then Target(read, disk, last.value)
               else if Dropped(rows, populated, name) then None
               else NowValid(read, disk, name)
  {
    var was := Start(read, disk, rows, populated, name);
    assert MergedValid(read, disk, rows, populated, name) == ValueOf(read, Through(read, disk, rows, name, was));
    assert ValueOf(read, was) == if Dropped(rows, populated, name) then None else NowValid(read, disk, name);
    hide LastActive, Target, ValueOf, MergedValid, Dropped;
    if name == "" {
      ThroughOthers(read, disk, rows, name, was);
    } else {
      ThroughLeaves(read, disk, rows, name, was);
    }
  }

  // ---------------------------------------------------------------- never replaced silently?

  type Loaded = map<string, real>

  function LoadedAt(loaded: Loaded, name: string): Option<real> {
    if name in loaded then Some(loaded[name]) else None
  }

  /** The rows' baselines are what the page last knew to be on disk. */
  predicate LoadedFrom(rows: seq<Row>, loaded: Loaded) {
    forall r :: r in rows && r.sourceName != "" ==> r.baseline == LoadedAt(loaded, r.sourceName)
  }

  /** A line of the report names the file's value under this name. */
  predicate Mentioned(read: Reader, disk: Targets, rows: seq<Row>, name: string) {
    exists r :: r in rows && r.sourceName == name && Conflicts(read, disk, r)
  }

  /** A renamed row takes the value along to its new name. */
  predicate CarriedOn(read: Reader, disk: Targets, rows: seq<Row>, name: string) {
    exists r :: r in rows && r.sourceName == name && r.name != "" && r.name != name
                && RowIntent(read, r).Untouched? && LastActive(read, disk, rows, r.name) == Some(r)
  }

  /** The file changed under this name after the page loaded, the save replaces what is there now, and
      neither says so nor keeps it under another name. */
  predicate SilentlyLost(read: Reader, disk: Targets, rows: seq<Row>, populated: seq<string>, loaded: Loaded,
                         name: string)
  {
    && NowValid(read, disk, name) != LoadedAt(loaded, name)
    && MergedValid(read, disk, rows, populated, name) != NowValid(read, disk, name)
    && !Mentioned(read, disk, rows, name) && !CarriedOn(read, disk, rows, name)
  }

  /** What replaces the value, read off the rows and the file before any merge. */
  predicate IsReplaced(read: Reader, disk: Targets, rows: seq<Row>, populated: seq<string>, name: string) {
    var now, last := NowValid(read, disk, name), LastActive(read, disk, rows, name);
    if name != "" && last.Some? then Target(read, disk, last.value) != now
    else Dropped(rows, populated, name) && now.Some?
  }

  /** Every edit of a named row that was loaded from this name writes what is there anyway. */
  predicate EditsAgree(read: Reader, disk: Targets, rows: seq<Row>, name: string) {
    forall r :: r in rows && r.name != "" && r.sourceName == name && name != ""
                && (RowIntent(read, r).Set? || RowIntent(read, r).Clear?)
                ==> Written(RowIntent(read, r)) == NowValid(read, disk, name)
  }

  /** For any rows, names and files: exactly when a value written after the page loaded is lost silently. A
      row named so, or the lack of one, replaces it, and no row that was loaded from that name edits it
      otherwise or takes it along. */
  lemma SilentlyLostIff(read: Reader, disk: Targets, rows: seq<Row>, populated: seq<string>, loaded: Loaded,
                        name: string)
    requires (forall r :: r in rows ==> SoundRow(r)) && LoadedFrom(rows, loaded)
    ensures SilentlyLost(read, disk, rows, populated, loaded, name)
       <==> && NowValid(read, disk, name) != LoadedAt(loaded, name)
            && IsReplaced(read, disk, rows, populated, name)
            && EditsAgree(read, disk, rows, name) && !CarriedOn(read, disk, rows, name)
  {
    MergedValidIs(read, disk, rows, populated, name);
    hide RowIntent, MergedValid, LastActive, Target, CarriedOn, Dropped;
    if NowValid(read, disk, name) != LoadedAt(loaded, name) {
      MentionedIffEditsDiffer(read, disk, rows, loaded, name);
    }
    hide NowValid;
  }

  lemma MentionedIffEditsDiffer(read: Reader, disk: Targets, rows: seq<Row>, loaded: Loaded, name: string)
    requires LoadedFrom(rows, loaded) && NowValid(read, disk, name) != LoadedAt(loaded, name)
    ensures Mentioned(read, disk, rows, name) <==> !EditsAgree(read, disk, rows, name)
  {
    hide RowIntent, ValidRatio;
    if r :| r in rows && r.name != "" && r.sourceName == name && name != ""
            && (RowIntent(read, r).Set? || RowIntent(read, r).Clear?)
            && Written(RowIntent(read, r)) != NowValid(read, disk, name) {
      assert Conflicts(read, disk, r);
    }
  }

  /** A loss takes a row that came from elsewhere, or a name that was given up: a page on which every row
      kept its name and none was removed never replaces anything silently. */
  lemma UnmovedPageLosesNothing(read: Reader, disk: Targets, rows: seq<Row>, populated: seq<string>, loaded: Loaded,
                                name: string)
    requires (forall r :: r in rows ==> SoundRow(r)) && LoadedFrom(rows, loaded)
    requires name in populated ==> name in Names(rows)
    requires forall r :: r in rows && r.name == name ==> r.sourceName == name
    ensures !SilentlyLost(read, disk, rows, populated, loaded, name)
  {
    SilentlyLostIff(read, disk, rows, populated, loaded, name);
    hide RowIntent, ValidRatio;
    var last := LastActive(read, disk, rows, name);
    if last.Some? && name != "" {
      assert last.value.sourceName == name;
    }
    hide LastActive;
  }

  /** A removed pair: the page loaded no target for it, one was written, the row was deleted; the save drops
      the entry and has no row to say so. */
  lemma DeletedRowLosesSilently(read: Reader)
    ensures SilentlyLost(read, map["a" := Num(0.5)], [], ["a"], map[], "a")
  {
    assert Dropped([], ["a"], "a");
    SilentlyLostIff(read, map["a" := Num(0.5)], [], ["a"], map[], "a");
  }

  /** A renamed row: cleared and renamed onto an entry that was written after the page loaded. */
  lemma RenamedRowLosesSilently(read: Reader)
    ensures SilentlyLost(read, map["old" := Num(0.25), "new" := Num(0.5)], [Row("new", "", None, Some(0.25), "old")],
                         ["old"], map["old" := 0.25], "new")
  {
    var r := Row("new", "", None, Some(0.25), "old");
    var disk := map["old" := Num(0.25), "new" := Num(0.5)];
    assert Bare("") == "";
    assert RowIntent(read, r) == Clear;
    assert "old" != "new" by {
      assert "old"[0] != "new"[0];
    }
    assert LastActive(read, disk, [r], "new") == Some(r) by {
      assert [r][0] == r;
    }
    SilentlyLostIff(read, disk, [r], ["old"], map["old" := 0.25], "new");
  }

  /** An added row: given the name of a pair whose target was written after the page loaded. */
  lemma AddedRowLosesSilently(read: Reader)
    requires ReadsNumerals(read)
    ensures SilentlyLost(read, map["a" := Num(0.5)], [Row("a", Fixed2(2500), None, None, "")], [], map[], "a")
  {
    var r := Row("a", Fixed2(2500), None, None, "");
    var disk := map["a" := Num(0.5)];
    Fixed2IsPlain(2500);
    PlainIsBare(Fixed2(2500));
    NumeralIsCanonical(read, 2500);
    hide Fixed2, Bare, CanonicalText;
    assert read(Fixed2(2500)) == Some(25.0);
    assert RowIntent(read, r) == Set(0.25);
    assert LastActive(read, disk, [r], "a") == Some(r) by {
      assert [r][0] == r;
    }
    SilentlyLostIff(read, disk, [r], [], map[], "a");
  }

  /** On a row that kept its name the report is exact: it has a line if and only if the file no longer holds
      what was loaded and the merge changes what it holds. */
  lemma KeptNameIsListedIff(read: Reader, disk: Targets, rows: seq<Row>, populated: seq<string>, i: nat)
    requires Alone(rows, i) && SoundRow(rows[i]) && rows[i].sourceName == rows[i].name
    ensures var r := rows[i];
            var now := NowValid(read, disk, r.name);
            Conflicts(read, disk, r)
            <==> now != r.baseline && MergedValid(read, disk, rows, populated, r.name) != now
  {
    OneRowDecides(read, disk, rows, populated, i);
    SetsAreFractions(read, rows[i]);
    hide RowIntent;
  }

  lemma SetsAreFractions(read: Reader, r: Row)
    requires SoundRow(r)
    ensures RowIntent(read, r).Set? ==> IsFraction(RowIntent(read, r).x)
  {
    hide CanonicalText, FormatRatioPct, Bare;
  }

  // ---------------------------------------------------------------- such a reader exists

  function PointAt(s: string): (i: nat)
    ensures i <= |s| && (i < |s| ==> s[i] == '.')
    ensures forall k :: 0 <= k < i ==> s[k] != '.'
  {
    if |s| == 0 || s[0] == '.' then 0 else 1 + PointAt(s[1..])
  }

  /** Digits, a point, two digits. */
  function ReadFixed2(s: string): Option<real> {
    var i := PointAt(s);
    if |s| == i + 3 && AllDigits(s[..i]) && AllDigits(s[i + 1..])
    then Some(Value(s[..i]) as real + Value(s[i + 1..]) as real / 100.0)
    else None
  }

  lemma TwoDigitsRoundTrip(d: nat)
    requires d < 100
    ensures AllDigits(TwoDigits(d)) && Value(TwoDigits(d)) == d
  {
    var s := TwoDigits(d);
    assert s[..1] == [Digit(d / 10)] && s[..1][..0] == [];
    assert Value(s[..1]) == d / 10;
  }

  lemma Recombined(k: nat)
    ensures (k / 100) as real + (k % 100) as real / 100.0 == k as real / 100.0
  {
    assert k == 100 * (k / 100) + k % 100;
    assert k as real == 100.0 * (k / 100) as real + (k % 100) as real;
  }

  lemma ReadsParts(whole: string, rest: string)
    requires AllDigits(whole) && AllDigits(rest) && |rest| == 2
    ensures ReadFixed2(whole + "." + rest) == Some(Value(whole) as real + Value(rest) as real / 100.0)
  {
    hide Value;
    var s := whole + "." + rest;
    assert s[|whole|] == '.' && s[..|whole|] == whole && s[|whole| + 1..] == rest;
    assert forall i :: 0 <= i < |whole| ==> s[i] == whole[i];
    assert PointAt(s) == |whole|;
  }

  lemma ReadsOne(k: nat)
    ensures ReadFixed2(Fixed2(k)) == Some(k as real / 100.0)
  {
    DecimalRoundTrip(k / 100);
    TwoDigitsRoundTrip(k % 100);
    Recombined(k);
    ReadsParts(Decimal(k / 100), TwoDigits(k % 100));
    assert |TwoDigits(k % 100)| == 2;
    hide Decimal, TwoDigits, Value, ReadFixed2, PointAt;
  }

  /** The demand on float() can be met. */
  lemma ReadFixed2Reads()
    ensures ReadsNumerals(ReadFixed2)
  {
    hide Fixed2, ReadFixed2;
    forall k: nat | k <= 10000
      ensures ReadFixed2(Fixed2(k)) == Some(k as real / 100.0)
    {
      ReadsOne(k);
    }
  }
}
