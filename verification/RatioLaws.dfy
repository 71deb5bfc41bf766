/** What a ratio cell's text amounts to (gui/ratio_targets.py:84-108, 146-180): the rounding it is shown in, the blanks
    and percent signs it may carry, and exactly which texts count as no edit. */
module RatioLaws {
  import opened Wrappers
  import opened Text
  import opened SeqFacts
  import opened RatioTargets

  // ---------------------------------------------------------------- what a cell shows

  /** The hundredths nearest to a percentage, the even ones of two. */
  ghost predicate IsHundredths(pct: real, k: int) {
    && -1.0 <= 2.0 * (k as real - pct * 100.0) <= 1.0
    && (2.0 * (k as real - pct * 100.0) == 1.0 || 2.0 * (k as real - pct * 100.0) == -1.0 ==> k % 2 == 0)
  }

  lemma HundredthsAre(pct: real)
    requires 0.0 <= pct <= 100.0
    ensures forall k: int :: IsHundredths(pct, k) <==> k == Hundredths(pct)
  {
    var y := pct * 100.0;
    NearestEven(y);
    forall k: int
      ensures IsHundredths(pct, k) <==> k == HalfEven(y)
    {
      if IsHundredths(pct, k) {
        OnlyOneNearest(y, k);
      }
    }
  }

  lemma NearestEven(y: real)
    ensures -1.0 <= 2.0 * (HalfEven(y) as real - y) <= 1.0
    ensures 2.0 * (HalfEven(y) as real - y) == 1.0 || 2.0 * (HalfEven(y) as real - y) == -1.0 ==> HalfEven(y) % 2 == 0
  {
  }

  lemma OnlyOneNearest(y: real, k: int)
    requires -1.0 <= 2.0 * (k as real - y) <= 1.0
    requires 2.0 * (k as real - y) == 1.0 || 2.0 * (k as real - y) == -1.0 ==> k % 2 == 0
    ensures k == HalfEven(y)
  {
  }

  // ---------------------------------------------------------------- what a text carries besides

  /** The characters that count as white space: the ASCII blanks and line ends, the four ASCII separators, NEL, and the
      Unicode spaces and separators. */
  lemma SpacesAre(c: char)
    ensures IsSpace(c) <==> c in [
      '\U{0009}', '\U{000A}', '\U{000B}', '\U{000C}', '\U{000D}', '\U{001C}', '\U{001D}', '\U{001E}', '\U{001F}', ' ',
      '\U{0085}', '\U{00A0}', '\U{1680}', '\U{2000}', '\U{2001}', '\U{2002}', '\U{2003}', '\U{2004}', '\U{2005}',
      '\U{2006}', '\U{2007}', '\U{2008}', '\U{2009}', '\U{200A}', '\U{2028}', '\U{2029}', '\U{202F}', '\U{205F}',
      '\U{3000}']
  {
  }

  ghost predicate AllSpace(s: string) {
    forall i :: 0 <= i < |s| ==> IsSpace(s[i])
  }

  /** The text between white space. */
  ghost predicate IsStripped(s: string, v: string) {
    && (exists a, b :: AllSpace(a) && AllSpace(b) && s == a + v + b)
    && (|v| > 0 ==> !IsSpace(v[0]) && !IsSpace(v[|v| - 1]))
  }

  lemma SpaceBefore(s: string, v: string)
    requires |s| > 0 && IsSpace(s[0]) && IsStripped(s[1..], v)
    ensures IsStripped(s, v)
  {
    hide IsSpace;
    var a, b :| AllSpace(a) && AllSpace(b) && s[1..] == a + v + b;
    assert AllSpace([s[0]] + a);
    assert s == [s[0]] + a + v + b;
  }

  lemma SpaceBehind(s: string, v: string)
    requires |s| > 0 && IsSpace(s[|s| - 1]) && IsStripped(s[..|s| - 1], v)
    ensures IsStripped(s, v)
  {
    hide IsSpace;
    var a, b :| AllSpace(a) && AllSpace(b) && s[..|s| - 1] == a + v + b;
    assert AllSpace(b + [s[|s| - 1]]);
    assert s == a + v + (b + [s[|s| - 1]]);
  }

  lemma NothingToStrip(s: string)
    requires |s| > 0 ==> !IsSpace(s[0]) && !IsSpace(s[|s| - 1])
    ensures IsStripped(s, s)
  {
    assert AllSpace("") && s == "" + s + "";
  }

  lemma {:induction false} StripIs(s: string)
    ensures IsStripped(s, Strip(s))
    decreases |s|
  {
    hide IsStripped, IsSpace;
    if |s| > 0 && IsSpace(s[0]) {
      StripIs(s[1..]);
      SpaceBefore(s, Strip(s));
    } else if |s| > 0 && IsSpace(s[|s| - 1]) {
      StripIs(s[..|s| - 1]);
      SpaceBehind(s, Strip(s));
    } else {
      NothingToStrip(s);
    }
  }

  /** Percent signs are dropped wherever they stand, and nothing else is. */
  lemma {:induction false} DropPercentIs(s: string)
    ensures DropPercent(s) == Filter(s, (c: char) => c != '%')
  {
    if |s| > 0 {
      DropPercentIs(s[1..]);
      assert s == [s[0]] + s[1..];
      FilterConcat([s[0]], s[1..], (c: char) => c != '%');
      assert Filter([s[0]], (c: char) => c != '%') == if s[0] != '%' then [s[0]] else [];
    }
  }

  // ---------------------------------------------------------------- edits

  /** A text that is no edit of what a cell shows: that text itself, or a percentage inside (0, 100) with the same
      hundredths. */
  ghost predicate ShowsTheSame(read: Reader, text: string, shown: Option<real>) {
    var v := Bare(text);
    var inside := shown.Some? && 0.0 < shown.value < 1.0;
    || v == FormatRatioPct(shown)
    || (v != "" && inside && read(v).Some? && 0.0 < read(v).value < 100.0
        && exists k: int :: IsHundredths(read(v).value, k) && IsHundredths(100.0 * shown.value, k))
  }

  /** What a row asks of its entry. An unchanged cell asks for what it was populated with, if that is not what the
      file was known to hold; an edit, for the fraction it reads as, or for none if it is blank. A text that is no
      percentage inside (0, 100) asks for nothing. */
  ghost predicate Asks(read: Reader, r: Row, intent: Intent) {
    if ShowsTheSame(read, r.text, r.shown) then
      (match r.shown
       case Some(x) => if r.baseline == Some(x) then intent == Untouched else intent == Set(x)
       case None => if r.baseline == None then intent == Untouched else intent == Clear)
    else if Bare(r.text) == "" then intent == Clear
    else match read(Bare(r.text))
      case Some(pct) => if 0.0 < pct < 100.0 then intent.Set? && 100.0 * intent.x == pct else intent == Ignore
      case None => intent == Ignore
  }

  lemma SameNumeral(a: nat, b: nat, read: Reader)
    requires ReadsNumerals(read) && a <= 10000 && b <= 10000
    ensures Fixed2(a) == Fixed2(b) <==> a == b
  {
    if Fixed2(a) == Fixed2(b) {
      assert a as real / 100.0 == b as real / 100.0;
    }
  }

  lemma HundredthsMeet(pct: real, f: real)
    requires 0.0 < pct < 100.0 && 0.0 < f < 1.0
    ensures (exists k: int :: IsHundredths(pct, k) && IsHundredths(100.0 * f, k)) <==> Hundredths(pct) == Hundredths(f * 100.0)
  {
    var shown := 100.0 * f;
    assert f * 100.0 == shown;
    HundredthsAre(pct);
    HundredthsAre(shown);
    hide IsHundredths, Hundredths;
    assert IsHundredths(pct, Hundredths(pct));
  }

  lemma TypedTextShownIff(read: Reader, r: Row, pct: real)
    requires ReadsNumerals(read) && Bare(r.text) != "" && read(Bare(r.text)) == Some(pct) && 0.0 < pct < 100.0
    ensures CanonicalText(read, r.text) == FormatRatioPct(r.shown) <==> ShowsTheSame(read, r.text, r.shown)
  {
    hide Fixed2, Hundredths, Bare, IsHundredths, ReadsNumerals;
    var k := Hundredths(pct);
    Fixed2IsPlain(k);
    if FractionOf(r.shown).Some? {
      PercentIsInside(r.shown.value);
      var k' := Hundredths(r.shown.value * 100.0);
      HundredthsMeet(pct, r.shown.value);
      SameNumeral(k, k', read);
      ReadsShown(read, k', pct, Bare(r.text));
    }
  }

  /** The displayed text of a fraction reads as its hundredths. */
  lemma ReadsShown(read: Reader, k: nat, pct: real, text: string)
    requires ReadsNumerals(read) && k <= 10000 && read(text) == Some(pct) && 0.0 < pct < 100.0
    ensures text == Fixed2(k) ==> Hundredths(pct) == k
  {
    if text == Fixed2(k) {
      assert read(Fixed2(k)) == Some(k as real / 100.0);
      WholeHundredths(k);
    }
  }

  lemma RowAsks(read: Reader, r: Row)
    requires ReadsNumerals(read)
    ensures Asks(read, r, RowIntent(read, r))
  {
    var v := Bare(r.text);
    if v != "" && read(v).Some? && 0.0 < read(v).value < 100.0 {
      TypedTextShownIff(read, r, read(v).value);
    }
    hide Fixed2, Hundredths, Bare, IsHundredths, FormatRatioPct;
  }

  // ---------------------------------------------------------------- the audit trail

  function NameOf(c: Change): string {
    c.name
  }

  /** An entry that is removed, added or replaced by another value. */
  ghost predicate Differs(before: Targets, after: Targets, c: Change) {
    match c
    case Removed(n, was) => (n, was) in before.Items && n !in after.Keys
    case Added(n, now) => n !in before.Keys && (n, now) in after.Items
    case Changed(n, was, now) => (n, was) in before.Items && (n, now) in after.Items && was != now
  }

  lemma {:induction false} UnnamedStays(m: Targets, lines: seq<Change>, n: string)
    requires forall l :: l in lines ==> NameOf(l) != n
    ensures Lookup(Patched(m, lines), n) == Lookup(m, n)
  {
    if |lines| > 0 {
      assert lines[|lines| - 1] in lines;
      UnnamedStays(m, lines[..|lines| - 1], n);
    }
  }

  /** True lines that make the new map of the old one list exactly the entries that differ, with both values. */
  lemma DifferencesAreListed(before: Targets, after: Targets, lines: seq<Change>, c: Change)
    requires Patched(before, lines) == after && forall l :: l in lines ==> IsChange(before, after, l)
    ensures c in lines <==> Differs(before, after, c)
  {
    if Differs(before, after, c) {
      var n := NameOf(c);
      assert Lookup(before, n) != Lookup(after, n);
      if forall l :: l in lines ==> NameOf(l) != n {
        UnnamedStays(before, lines, n);
      } else {
        var l :| l in lines && NameOf(l) == n;
        assert l == c;
      }
    }
  }

  // ---------------------------------------------------------------- values taken along

  /** A value that a renamed row takes along is what the merge leaves under the row's new name. */
  lemma CarriedIsKept(read: Reader, disk: Targets, rows: seq<Row>, populated: seq<string>, name: string)
    requires (forall r :: r in rows ==> SoundRow(r)) && NowValid(read, disk, name).Some?
    ensures CarriedOn(read, disk, rows, name) ==>
              exists r :: r in rows && r.sourceName == name && r.name != name
                          && MergedValid(read, disk, rows, populated, r.name) == NowValid(read, disk, name)
  {
    hide RowIntent, ValidRatio, MergedValid, LastActive;
    if r :| r in rows && r.sourceName == name && r.name != "" && r.name != name
            && RowIntent(read, r).Untouched? && LastActive(read, disk, rows, r.name) == Some(r) {
      MergedValidIs(read, disk, rows, populated, r.name);
    }
  }
}
