/** What a stop request says, from its text alone (gui/shutdown_flag.py:134-196 and the engine's reader,
    cpp/include/xop/util/shutdown_flag.hpp:94-180): which pieces are its lines, which values count, and what two lines
    of a kind mean. */
module RequestLaws {
  import opened Wrappers
  import opened Text
  import opened ShutdownRequest

  // ---------------------------------------------------------------- lines

  /** The lines, each ended by a newline. */
  ghost function Joined(lines: seq<string>): string {
    if |lines| == 0 then "" else lines[0] + "\n" + Joined(lines[1..])
  }

  /** The lines of a text: pieces without a newline that, each ended by one, make up the text, where the last one
      need not be ended unless it is empty. */
  ghost predicate AreLines(text: string, lines: seq<string>) {
    && (forall l :: l in lines ==> '\n' !in l)
    && (Joined(lines) == text || (Joined(lines) == text + "\n" && |lines| > 0 && lines[|lines| - 1] != ""))
  }

  lemma {:induction false} CutsAreLines(text: string)
    ensures AreLines(text, CutLines(text))
    decreases |text|
  {
    hide AreLines;
    var i := NewlineAt(text);
    if |text| == 0 {
      NoLines();
    } else if i == |text| {
      OneLine(text);
    } else {
      CutsAreLines(text[i + 1..]);
      assert text == text[..i] + "\n" + text[i + 1..];
      MoreLines(text[..i], text[i + 1..], CutLines(text[i + 1..]));
    }
  }

  lemma NoLines()
    ensures AreLines("", [])
  {
  }

  lemma OneLine(text: string)
    requires |text| > 0 && '\n' !in text
    ensures AreLines(text, [text])
  {
    assert [text][1..] == [];
    assert Joined([text]) == text + "\n" + "";
  }

  lemma MoreLines(line: string, rest: string, lines: seq<string>)
    requires '\n' !in line && AreLines(rest, lines)
    ensures AreLines(line + "\n" + rest, [line] + lines)
  {
    var all := [line] + lines;
    assert all[1..] == lines;
    assert line + "\n" + (rest + "\n") == line + "\n" + rest + "\n";
    assert Joined(all) == line + "\n" + Joined(lines);
    hide Joined;
    assert |lines| > 0 ==> all[|all| - 1] == lines[|lines| - 1];
  }

  /** Without the byte order mark and each line without one carriage return: what the parsers read. */
  ghost predicate IsRead(text: string, lines: seq<string>) {
    exists raw: seq<string> ::
      && AreLines(if |text| > 0 && text[0] == '\U{FEFF}' then text[1..] else text, raw)
      && |lines| == |raw|
      && forall i :: 0 <= i < |raw| ==> raw[i] == lines[i] + "\r" || (raw[i] == lines[i] && !EndsInCr(raw[i]))
  }

  predicate EndsInCr(s: string) {
    |s| > 0 && s[|s| - 1] == '\r'
  }

  lemma CleanLinesAreRead(text: string)
    ensures IsRead(text, CleanLines(text))
  {
    CutsAreLines(DropBom(text));
    LinesAreCut(DropBom(text));
    hide CutLines, Lines, AreLines;
    var raw := CutLines(DropBom(text));
    forall i | 0 <= i < |raw|
      ensures raw[i] == StripCr(raw[i]) + "\r" || (raw[i] == StripCr(raw[i]) && !EndsInCr(raw[i]))
    {
      if EndsInCr(raw[i]) {
        assert raw[i] == raw[i][..|raw[i]| - 1] + "\r";
      }
    }
    hide StripCr;
  }

  // ---------------------------------------------------------------- values

  ghost predicate Blank(s: string) {
    forall i :: 0 <= i < |s| ==> s[i] == ' ' || s[i] == '\t'
  }

  /** A value between blanks and tabs. */
  ghost predicate Surrounds(s: string, v: string) {
    && (exists a, b :: Blank(a) && Blank(b) && s == a + v + b)
    && (|v| > 0 ==> !Blank([v[0]]) && !Blank([v[|v| - 1]]))
  }

  lemma {:induction false} FrontIs(s: string) returns (a: string)
    ensures Blank(a) && s == a + TrimFront(s) && (|TrimFront(s)| > 0 ==> !Blank([TrimFront(s)[0]]))
  {
    a := "";
    if |s| > 0 && IsBlank(s[0]) {
      var rest := FrontIs(s[1..]);
      a := [s[0]] + rest;
    } else if |s| > 0 {
      assert [s[0]][0] == s[0];
    }
  }

  lemma {:induction false} BackIs(s: string) returns (b: string)
    ensures Blank(b) && s == TrimBack(s) + b && (|TrimBack(s)| > 0 ==> !Blank([TrimBack(s)[|TrimBack(s)| - 1]]))
  {
    b := "";
    if |s| > 0 && IsBlank(s[|s| - 1]) {
      var rest := BackIs(s[..|s| - 1]);
      b := rest + [s[|s| - 1]];
    } else if |s| > 0 {
      assert [s[|s| - 1]][0] == s[|s| - 1];
    }
  }

  lemma TrimIs(s: string)
    ensures Surrounds(s, Trim(s))
  {
    var a := FrontIs(s);
    var b := BackIs(TrimFront(s));
    var v := Trim(s);
    assert s == a + v + b;
    if |v| > 0 {
      assert TrimFront(s)[0] == v[0];
    }
    hide Blank;
  }

  /** A number from 1 to 4294967295 in at most 4300 ASCII digits. */
  ghost predicate IsPid(value: string, pid: nat) {
    exists v :: && Surrounds(value, v) && 0 < |v| <= 4300 && AllDigits(v) && Value(v) == pid
                && 1 <= pid <= 4_294_967_295
  }

  lemma {:induction false} OnlyBlankMiddle(a: string, v: string, b: string, s: string)
    requires s == a + v + b && Blank(a) && Blank(b) && (|v| > 0 ==> !Blank([v[0]]) && !Blank([v[|v| - 1]]))
    ensures Trim(s) == v
  {
    FrontOff(a, v + b);
    assert s == a + (v + b);
    if |v| == 0 {
      assert v + b == b && b + "" == b;
      FrontOff(b, "");
    } else {
      assert (v + b)[0] == v[0] && [v[0]][0] == v[0];
      assert TrimFront(v + b) == v + b;
      BackOff(v, b);
      assert [v[|v| - 1]][0] == v[|v| - 1];
    }
  }

  lemma {:induction false} FrontOff(a: string, rest: string)
    requires Blank(a)
    ensures TrimFront(a + rest) == TrimFront(rest)
  {
    if |a| == 0 {
      assert a + rest == rest;
    } else {
      assert (a + rest)[1..] == a[1..] + rest;
      FrontOff(a[1..], rest);
    }
  }

  lemma {:induction false} BackOff(front: string, b: string)
    requires Blank(b)
    ensures TrimBack(front + b) == TrimBack(front)
  {
    if |b| == 0 {
      assert front + b == front;
    } else {
      assert (front + b)[..|front + b| - 1] == front + b[..|b| - 1];
      BackOff(front, b[..|b| - 1]);
    }
  }

  lemma TrimUnique(s: string, v: string)
    ensures Surrounds(s, v) <==> v == Trim(s)
  {
    TrimIs(s);
    if Surrounds(s, v) {
      var a, b :| Blank(a) && Blank(b) && s == a + v + b;
      OnlyBlankMiddle(a, v, b, s);
    }
  }

  lemma PidIs(value: string, pid: nat)
    ensures DecimalPid(value) == Some(pid) <==> IsPid(value, pid)
  {
    TrimUnique(value, Trim(value));
    forall v | Surrounds(value, v)
      ensures v == Trim(value)
    {
      TrimUnique(value, v);
    }
    hide Trim, Surrounds;
  }

  ghost predicate Spells(v: string, word: string) {
    |v| == |word| && forall i :: 0 <= i < |v| ==> v[i] == word[i] || v[i] as int + 32 == word[i] as int
  }

  /** The word in any mixture of cases. */
  ghost predicate IsWord(value: string, word: string) {
    exists v :: Surrounds(value, v) && Spells(v, word)
  }

  lemma LowerIs(c: char, low: char)
    requires 'a' <= low <= 'z'
    ensures LowerChar(c) == low <==> c == low || c as int + 32 == low as int
  {
  }

  lemma SpellsIs(v: string, word: string)
    requires forall i :: 0 <= i < |word| ==> 'a' <= word[i] <= 'z'
    ensures EqualsIgnoringCase(v, word) <==> Spells(v, word)
  {
    if |v| == |word| {
      forall i | 0 <= i < |v|
        ensures LowerChar(v[i]) == word[i] <==> v[i] == word[i] || v[i] as int + 32 == word[i] as int
      {
        LowerIs(v[i], word[i]);
      }
    }
  }

  lemma WordIs(value: string, word: string)
    requires forall i :: 0 <= i < |word| ==> 'a' <= word[i] <= 'z'
    ensures IsAscii(Trim(value)) && Lower(Trim(value)) == word <==> IsWord(value, word)
  {
    forall v
      ensures Surrounds(value, v) <==> v == Trim(value)
    {
      TrimUnique(value, v);
    }
    CaseRulesAgree(Trim(value), word);
    SpellsIs(Trim(value), word);
    hide Trim, Surrounds, Spells, EqualsIgnoringCase, IsAscii, Lower;
    assert Surrounds(value, Trim(value));
  }

  lemma PolicyIs(value: string)
    ensures PolicyOf(value) == Some(Cancel) <==> IsWord(value, "cancel")
    ensures PolicyOf(value) == Some(Keep) <==> IsWord(value, "keep")
  {
    WordIs(value, "cancel");
    WordIs(value, "keep");
    hide Trim;
    assert "cancel" != "keep";
  }

  // ---------------------------------------------------------------- what counts

  /** The lines that start with a key. */
  ghost function Keyed(lines: seq<string>, key: string): set<nat> {
    set i: nat | i < |lines| && |lines[i]| >= |key| && lines[i][..|key|] == key
  }

  lemma {:induction false} AsManyKeyed(lines: seq<string>, key: string)
    ensures |ValuesOf(lines, key)| == |Keyed(lines, key)|
  {
    if |lines| > 0 {
      var n := |lines| - 1;
      AsManyKeyed(lines[..n], key);
      KeyedSnoc(lines, key);
      assert key <= lines[n] <==> n in Keyed(lines, key);
      hide Keyed;
    } else {
      assert Keyed(lines, key) == {};
    }
  }

  lemma {:induction false} OneKeyed(lines: seq<string>, key: string) returns (i: nat)
    requires |ValuesOf(lines, key)| == 1
    ensures i in Keyed(lines, key) && ValuesOf(lines, key)[0] == lines[i][|key|..]
  {
    var n := |lines| - 1;
    if key <= lines[n] {
      i := n;
    } else {
      i := OneKeyed(lines[..n], key);
      hide ValuesOf;
    }
  }

  lemma ValuesAreKeyed(lines: seq<string>, key: string)
    ensures |ValuesOf(lines, key)| == |Keyed(lines, key)|
    ensures |ValuesOf(lines, key)| == 1 ==>
              exists i :: i in Keyed(lines, key) && ValuesOf(lines, key)[0] == lines[i][|key|..]
  {
    AsManyKeyed(lines, key);
    if |ValuesOf(lines, key)| == 1 {
      var _ := OneKeyed(lines, key);
    }
    hide ValuesOf, Keyed;
  }

  lemma KeyedSnoc(lines: seq<string>, key: string)
    requires |lines| > 0
    ensures var n := |lines| - 1;
            && n !in Keyed(lines[..n], key)
            && Keyed(lines, key) == Keyed(lines[..n], key) + if n in Keyed(lines, key) then {n} else {}
  {
  }

  /** The value behind the only line with a key. */
  ghost predicate OnlyValue(lines: seq<string>, key: string, value: string) {
    exists i :: Keyed(lines, key) == {i} && value == lines[i][|key|..]
  }

  lemma OnlyValueIs(lines: seq<string>, key: string, value: string)
    ensures OnlyValue(lines, key, value) <==> ValuesOf(lines, key) == [value]
  {
    ValuesAreKeyed(lines, key);
    var values, keyed := ValuesOf(lines, key), Keyed(lines, key);
    hide ValuesOf;
    if |values| == 1 {
      var i :| i in keyed && values[0] == lines[i][|key|..];
      assert |keyed - {i}| == 0;
      assert keyed == {i};
      assert values == [values[0]];
    }
    if OnlyValue(lines, key, value) {
      assert |keyed| == 1;
    }
  }

  /** No pid line; one that names a process; or neither. */
  ghost predicate Addresses(lines: seq<string>, kind: Kind) {
    match kind
    case Unaddressed => Keyed(lines, "pid=") == {}
    case Addressed(pid) => exists value :: OnlyValue(lines, "pid=", value) && IsPid(value, pid)
    case Malformed => Keyed(lines, "pid=") != {}
                      && forall value, pid: nat :: OnlyValue(lines, "pid=", value) ==> !IsPid(value, pid)
  }

  /** Who asked, where the only such line names a process. */
  ghost predicate AskedBy(lines: seq<string>, requester: Option<nat>) {
    match requester
    case Some(pid) => exists value :: OnlyValue(lines, "requested_by_pid=", value) && IsPid(value, pid)
    case None => forall value, pid: nat :: OnlyValue(lines, "requested_by_pid=", value) ==> !IsPid(value, pid)
  }

  /** No offers line; one that says cancel or keep; or anything else, two lines included. */
  ghost predicate SaysOfOffers(lines: seq<string>, offers: Offers) {
    match offers
    case Unspecified => Keyed(lines, "offers=") == {}
    case Says(Cancel) => exists value :: OnlyValue(lines, "offers=", value) && IsWord(value, "cancel")
    case Says(Keep) => exists value :: OnlyValue(lines, "offers=", value) && IsWord(value, "keep")
    case Unrecognised => Keyed(lines, "offers=") != {}
                         && forall value :: OnlyValue(lines, "offers=", value) ==>
                              !IsWord(value, "cancel") && !IsWord(value, "keep")
  }

  lemma AddressIs(lines: seq<string>)
    ensures Addresses(lines, AddressOf(ValuesOf(lines, "pid=")))
  {
    ValuesAreKeyed(lines, "pid=");
    var values := ValuesOf(lines, "pid=");
    forall value
      ensures OnlyValue(lines, "pid=", value) <==> values == [value]
    {
      OnlyValueIs(lines, "pid=", value);
    }
    forall value, pid: nat
      ensures DecimalPid(value) == Some(pid) <==> IsPid(value, pid)
    {
      PidIs(value, pid);
    }
    hide ValuesOf, DecimalPid, IsPid, OnlyValue, Keyed;
    if |values| == 1 {
      assert values == [values[0]];
    }
  }

  lemma RequesterIs(lines: seq<string>)
    ensures var values := ValuesOf(lines, "requested_by_pid=");
            AskedBy(lines, if |values| == 1 then DecimalPid(values[0]) else None)
  {
    var values := ValuesOf(lines, "requested_by_pid=");
    forall value
      ensures OnlyValue(lines, "requested_by_pid=", value) <==> values == [value]
    {
      OnlyValueIs(lines, "requested_by_pid=", value);
    }
    forall value, pid: nat
      ensures DecimalPid(value) == Some(pid) <==> IsPid(value, pid)
    {
      PidIs(value, pid);
    }
    hide ValuesOf, DecimalPid, IsPid, OnlyValue;
    if |values| == 1 {
      assert values == [values[0]];
    }
  }

  lemma OffersAre(lines: seq<string>)
    ensures SaysOfOffers(lines, OffersOf(ValuesOf(lines, "offers=")))
  {
    ValuesAreKeyed(lines, "offers=");
    var values := ValuesOf(lines, "offers=");
    forall value
      ensures OnlyValue(lines, "offers=", value) <==> values == [value]
    {
      OnlyValueIs(lines, "offers=", value);
    }
    forall value
      ensures PolicyOf(value) == Some(Cancel) <==> IsWord(value, "cancel")
      ensures PolicyOf(value) == Some(Keep) <==> IsWord(value, "keep")
    {
      PolicyIs(value);
    }
    hide ValuesOf, PolicyOf, IsWord, OnlyValue, Keyed;
    if |values| == 1 {
      assert values == [values[0]];
    }
  }

  /** What a text says: who is to stop, who asked and what becomes of the offers. A malformed one says nothing more;
      without an addressee nobody is waiting. */
  ghost predicate Means(text: string, p: Parsed) {
    exists lines: seq<string> ::
      && IsRead(text, lines)
      && Addresses(lines, p.kind)
      && (if p.kind.Addressed? then AskedBy(lines, p.requester) else p.requester == None)
      && (if p.kind.Malformed? then p.offers == Unspecified else SaysOfOffers(lines, p.offers))
  }

  lemma ReadMeans(text: string)
    ensures Means(text, Read(text))
  {
    var lines := CleanLines(text);
    CleanLinesAreRead(text);
    AddressIs(lines);
    RequesterIs(lines);
    OffersAre(lines);
    hide IsRead, Addresses, AskedBy, SaysOfOffers, CleanLines, ValuesOf, AddressOf, OffersOf, DecimalPid;
  }
}
