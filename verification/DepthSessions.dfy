/** Splitting a probe file into sessions (scripts/permuto_depth_analyze.py:40-93). Lines arrive already
    parsed: blank, unreadable, a session header, or a data row. */
module DepthSessions {
  import opened Wrappers

  datatype Line<H, R> = Blank | Unreadable | Header(header: H) | Data(row: R)

  datatype Session<H, R> = Session(header: Option<H>, rows: seq<R>, truncated: bool)

  // ---------------------------------------------------------------- what belongs together

  /** A boundary may hide in an unreadable record: it is pending until the next readable one. */
  function PendingAfter<H, R>(lines: seq<Line<H, R>>): bool {
    if |lines| == 0 then false
    else
      match lines[|lines| - 1]
      case Blank => PendingAfter(lines[..|lines| - 1])
      case Unreadable => true
      case Header(_) => false
      case Data(_) => false
  }

  /** How many sessions the lines open. */
  function Opened<H, R>(lines: seq<Line<H, R>>): nat {
    if |lines| == 0 then 0
    else
      var before := lines[..|lines| - 1];
      Opened(before) +
      match lines[|lines| - 1]
      case Blank => 0
      case Unreadable => 0
      case Header(_) => 1
      case Data(_) => if PendingAfter(before) || Opened(before) == 0 then 1 else 0
  }

  /** The session the record on line i goes to. */
  function OwnerOf<H, R>(lines: seq<Line<H, R>>, i: nat): int
    requires i < |lines|
  {
    Opened(lines[..i + 1]) - 1
  }

  /** The data rows whose owner is session k, in file order. */
  function OwnedRows<H, R>(lines: seq<Line<H, R>>, k: int): seq<R> {
    if |lines| == 0 then []
    else
      var before, last := lines[..|lines| - 1], lines[|lines| - 1];
      if last.Data? && Opened(lines) - 1 == k then OwnedRows(before, k) + [last.row] else OwnedRows(before, k)
  }

  /** What opened session k: its header, or, headerless, whether behind an unreadable record. */
  function OpenerOf<H, R>(lines: seq<Line<H, R>>, k: nat): (Option<H>, bool)
    requires k < Opened(lines)
  {
    var before, last := lines[..|lines| - 1], lines[|lines| - 1];
    if k < Opened(before) then OpenerOf(before, k)
    else if last.Header? then (Some(last.header), false)
    else (None, PendingAfter(before))
  }

  function DataRows<H, R>(lines: seq<Line<H, R>>): seq<R> {
    if |lines| == 0 then []
    else
      var last := lines[|lines| - 1];
      DataRows(lines[..|lines| - 1]) + if last.Data? then [last.row] else []
  }

  function Malformed<H, R>(lines: seq<Line<H, R>>): nat {
    if |lines| == 0 then 0
    else Malformed(lines[..|lines| - 1]) + if lines[|lines| - 1].Unreadable? then 1 else 0
  }

  function Flatten<H, R>(sessions: seq<Session<H, R>>): seq<R> {
    if |sessions| == 0 then [] else Flatten(sessions[..|sessions| - 1]) + sessions[|sessions| - 1].rows
  }

  lemma LineSnoc<H, R>(lines: seq<Line<H, R>>, k: nat)
    requires k < |lines|
    ensures lines[..k + 1][..k] == lines[..k]
    ensures lines[..k + 1][k] == lines[k]
  {
  }

  lemma {:induction false} LaterSessionsOwnNothing<H, R>(lines: seq<Line<H, R>>, k: int)
    requires k >= Opened(lines)
    ensures OwnedRows(lines, k) == []
  {
    if |lines| > 0 {
      LaterSessionsOwnNothing(lines[..|lines| - 1], k);
    }
  }

  /** The sessions are those of the lines: each holds exactly the rows it owns, together they hold
      every data row once and in order, and none is a phantom. */
  ghost predicate Loaded<H, R>(lines: seq<Line<H, R>>, sessions: seq<Session<H, R>>) {
    && |sessions| == Opened(lines)
    && (forall k :: 0 <= k < |sessions| ==> sessions[k].rows == OwnedRows(lines, k))
    && Flatten(sessions) == DataRows(lines)
    && (forall k :: 0 <= k < |sessions| ==> (sessions[k].header, sessions[k].truncated) == OpenerOf(lines, k))
    && (forall k :: 0 <= k < |sessions| ==> sessions[k].header.Some? || |sessions[k].rows| > 0)
  }

  /** A line that opens nothing and carries no row changes nothing. */
  lemma LoadedSkip<H, R>(lines: seq<Line<H, R>>, line: Line<H, R>, sessions: seq<Session<H, R>>)
    requires Loaded(lines, sessions) && (line.Blank? || line.Unreadable?)
    ensures Loaded(lines + [line], sessions)
  {
    hide Flatten;
    assert (lines + [line])[..|lines|] == lines;
  }

  lemma LoadedOpen<H, R>(lines: seq<Line<H, R>>, line: Line<H, R>, sessions: seq<Session<H, R>>, started: Session<H, R>)
    requires Loaded(lines, sessions) && Opened(lines + [line]) == Opened(lines) + 1
    requires match line
             case Header(h) => started == Session(Some(h), [], false)
             case Data(d) => started == Session(None, [d], PendingAfter(lines))
             case _ => false
    ensures Loaded(lines + [line], sessions + [started])
  {
    hide Opened;
    assert (lines + [line])[..|lines|] == lines;
    assert (sessions + [started])[..|sessions|] == sessions;
    LaterSessionsOwnNothing(lines, |sessions|);
  }

  lemma LoadedAppend<H, R>(lines: seq<Line<H, R>>, row: R, sessions: seq<Session<H, R>>)
    requires Loaded(lines, sessions) && |sessions| > 0 && !PendingAfter(lines)
    ensures var n := |sessions| - 1;
            Loaded(lines + [Data(row)], sessions[..n] + [sessions[n].(rows := sessions[n].rows + [row])])
  {
    var n := |sessions| - 1;
    var last := sessions[n].(rows := sessions[n].rows + [row]);
    var next := sessions[..n] + [last];
    assert (lines + [Data(row)])[..|lines|] == lines;
    assert Opened(lines + [Data(row)]) == Opened(lines);
    hide Opened, PendingAfter;
    assert next[..n] == sessions[..n];
    assert Flatten(next) == Flatten(sessions) + [row];
    hide Flatten;
  }

  /** load_sessions. */
  method LoadSessions<H, R>(lines: seq<Line<H, R>>) returns (sessions: seq<Session<H, R>>, malformed: nat)
    ensures malformed == Malformed(lines)
    ensures Loaded(lines, sessions)
  {
    sessions, malformed := [], 0;
    var pendingBreak := false;
    for i := 0 to |lines|
      invariant malformed == Malformed(lines[..i])
      invariant pendingBreak == PendingAfter(lines[..i])
      invariant Loaded(lines[..i], sessions)
    {
      hide Flatten, OwnedRows, DataRows;
      LineSnoc(lines, i);
      assert lines[..i + 1] == lines[..i] + [lines[i]];
      match lines[i]
      case Blank =>
        LoadedSkip(lines[..i], lines[i], sessions);
      case Unreadable =>
        LoadedSkip(lines[..i], lines[i], sessions);
        malformed := malformed + 1;
        pendingBreak := true;
      case Header(h) =>
        LoadedOpen(lines[..i], lines[i], sessions, Session(Some(h), [], false));
        sessions := sessions + [Session(Some(h), [], false)];
        pendingBreak := false;
      case Data(d) =>
        if pendingBreak || |sessions| == 0 {
          LoadedOpen(lines[..i], lines[i], sessions, Session(None, [d], pendingBreak));
          sessions := sessions + [Session(None, [d], pendingBreak)];
          pendingBreak := false;
        } else {
          LoadedAppend(lines[..i], d, sessions);
          var last := sessions[|sessions| - 1];
          sessions := sessions[..|sessions| - 1] + [last.(rows := last.rows + [d])];
        }
    }
    assert lines[..|lines|] == lines;
  }

  // ---------------------------------------------------------------- what a session means

  /** A line that separates sessions. */
  predicate IsBreak<H, R>(line: Line<H, R>) {
    line.Header? || line.Unreadable?
  }

  lemma {:induction false} OpenedGrows<H, R>(lines: seq<Line<H, R>>, i: nat, j: nat)
    requires i <= j <= |lines|
    ensures Opened(lines[..i]) <= Opened(lines[..j])
  {
    if i < j {
      LineSnoc(lines, j - 1);
      OpenedGrows(lines, i, j - 1);
    }
  }

  /** From a data row on, nothing is pending and nothing opens until a break. */
  lemma {:induction false} NoBreakNoOpening<H, R>(lines: seq<Line<H, R>>, i: nat, j: nat)
    requires i < j <= |lines| && lines[i].Data?
    requires forall m :: i < m < j ==> !IsBreak(lines[m])
    ensures !PendingAfter(lines[..j]) && Opened(lines[..j]) == Opened(lines[..i + 1]) > 0
  {
    LineSnoc(lines, j - 1);
    if i + 1 < j {
      NoBreakNoOpening(lines, i, j - 1);
    }
  }

  /** After a break, either a session has opened or a boundary is pending, so the next data row cannot
      join what came before. */
  lemma {:induction false} BreakSeparates<H, R>(lines: seq<Line<H, R>>, b: nat, j: nat)
    requires b < j <= |lines| && IsBreak(lines[b])
    ensures PendingAfter(lines[..j]) || Opened(lines[..j]) > Opened(lines[..b])
  {
    LineSnoc(lines, j - 1);
    if b + 1 < j {
      BreakSeparates(lines, b, j - 1);
      OpenedGrows(lines, b, j - 1);
    }
  }

  /** Two data rows share a session exactly when no header and no unreadable record lies between. */
  lemma ShareSessionIff<H, R>(lines: seq<Line<H, R>>, i: nat, j: nat)
    requires i < j < |lines| && lines[i].Data? && lines[j].Data?
    ensures OwnerOf(lines, i) == OwnerOf(lines, j) <==> forall m :: i < m < j ==> !IsBreak(lines[m])
  {
    if forall m :: i < m < j ==> !IsBreak(lines[m]) {
      NoBreakNoOpening(lines, i, j + 1);
    } else {
      var b :| i < b < j && IsBreak(lines[b]);
      BreakSeparates(lines, b, j);
      LineSnoc(lines, j);
      OpenedGrows(lines, i + 1, b);
      OpenedGrows(lines, b, j);
    }
  }

  /** A probe killed on its last write leaves no phantom session: trailing unreadable records and
      blank lines open nothing and own nothing. */
  lemma TrailingRecordOpensNothing<H, R>(lines: seq<Line<H, R>>, tail: Line<H, R>, k: int)
    requires tail.Unreadable? || tail.Blank?
    ensures Opened(lines + [tail]) == Opened(lines)
    ensures OwnedRows(lines + [tail], k) == OwnedRows(lines, k)
  {
    assert (lines + [tail])[..|lines|] == lines;
  }
}
