/** The sessions of a probe file, line by line (scripts/permuto_depth_analyze.py:37-93): which lines start one, what
    each carries, and where every data row ends up. */
module SessionLaws {
  import opened Wrappers
  import opened DepthSessions

  /** Line i lies behind an unreadable record, with nothing readable in between. */
  ghost predicate BehindUnreadable<H, R>(lines: seq<Line<H, R>>, i: nat)
    requires i <= |lines|
  {
    exists b :: 0 <= b < i && lines[b].Unreadable? && forall m :: b < m < i ==> lines[m].Blank? || lines[m].Unreadable?
  }

  /** A line that starts a session: a header, or a data row behind an unreadable record or before which nothing
      was readable. */
  ghost predicate StartsSession<H, R>(lines: seq<Line<H, R>>, i: nat)
    requires i < |lines|
  {
    || lines[i].Header?
    || (lines[i].Data? && (BehindUnreadable(lines, i) || forall m :: 0 <= m < i ==> lines[m].Blank? || lines[m].Unreadable?))
  }

  ghost function Starts<H, R>(lines: seq<Line<H, R>>): set<nat> {
    set i: nat | i < |lines| && StartsSession(lines, i)
  }

  lemma {:induction false} PendingIff<H, R>(lines: seq<Line<H, R>>)
    ensures PendingAfter(lines) <==> BehindUnreadable(lines, |lines|)
  {
    if |lines| > 0 {
      var n := |lines| - 1;
      var before := lines[..n];
      PendingIff(before);
      match lines[n]
      case Blank =>
        if BehindUnreadable(lines, |lines|) {
          var b :| 0 <= b < |lines| && lines[b].Unreadable?
                   && forall m :: b < m < |lines| ==> lines[m].Blank? || lines[m].Unreadable?;
          assert before[b].Unreadable?;
        }
        if b :| 0 <= b < n && before[b].Unreadable? && forall m :: b < m < n ==> before[m].Blank? || before[m].Unreadable? {
          assert lines[b].Unreadable?;
        }
      case Unreadable =>
        assert lines[n].Unreadable?;
      case Header(_) =>
        assert !lines[n].Blank? && !lines[n].Unreadable?;
      case Data(_) =>
        assert !lines[n].Blank? && !lines[n].Unreadable?;
    }
  }

  lemma {:induction false} NothingOpenedIff<H, R>(lines: seq<Line<H, R>>)
    ensures Opened(lines) == 0 <==> forall m :: 0 <= m < |lines| ==> lines[m].Blank? || lines[m].Unreadable?
  {
    if |lines| > 0 {
      NothingOpenedIff(lines[..|lines| - 1]);
    }
  }

  lemma SameBehind<H, R>(lines: seq<Line<H, R>>, n: nat, i: nat)
    requires i <= n <= |lines|
    ensures BehindUnreadable(lines[..n], i) <==> BehindUnreadable(lines, i)
  {
    var front := lines[..n];
    if b :| 0 <= b < i && lines[b].Unreadable? && forall m :: b < m < i ==> lines[m].Blank? || lines[m].Unreadable? {
      assert front[b].Unreadable?;
    }
    if b :| 0 <= b < i && front[b].Unreadable? && forall m :: b < m < i ==> front[m].Blank? || front[m].Unreadable? {
      assert lines[b].Unreadable?;
      assert forall m :: b < m < i ==> lines[m] == front[m];
    }
  }

  lemma StartsSnoc<H, R>(lines: seq<Line<H, R>>)
    requires |lines| > 0
    ensures Starts(lines) == Starts(lines[..|lines| - 1]) + if StartsSession(lines, |lines| - 1) then {|lines| - 1} else {}
  {
    var n := |lines| - 1;
    var front := lines[..n];
    forall i: nat | i < n
      ensures StartsSession(front, i) <==> StartsSession(lines, i)
    {
      SameBehind(lines, n, i);
      assert forall m :: 0 <= m < i ==> front[m] == lines[m];
      hide BehindUnreadable;
    }
    hide StartsSession;
  }

  /** A file opens as many sessions as lines start one. */
  lemma {:induction false} SessionsAreStarts<H, R>(lines: seq<Line<H, R>>)
    ensures Opened(lines) == |Starts(lines)|
  {
    if |lines| > 0 {
      var n := |lines| - 1;
      SessionsAreStarts(lines[..n]);
      StartsSnoc(lines);
      PendingIff(lines[..n]);
      SameBehind(lines, n, n);
      NothingOpenedIff(lines[..n]);
      assert forall m :: 0 <= m < n ==> lines[..n][m] == lines[m];
      assert n !in Starts(lines[..n]);
      hide BehindUnreadable, PendingAfter, Starts;
    } else {
      assert Starts(lines) == {};
    }
  }

  /** A data row belongs to the session of the last line up to it that starts one. */
  lemma OwnerIsLastStart<H, R>(lines: seq<Line<H, R>>, i: nat)
    requires i < |lines|
    ensures OwnerOf(lines, i) == |Starts(lines[..i + 1])| - 1
  {
    SessionsAreStarts(lines[..i + 1]);
  }

  /** The data rows of session k. */
  ghost function RowsOf<H, R>(lines: seq<Line<H, R>>, k: int): set<nat> {
    set i: nat | i < |lines| && lines[i].Data? && OwnerOf(lines, i) == k
  }

  lemma SameOwner<H, R>(lines: seq<Line<H, R>>, n: nat, i: nat)
    requires i < n <= |lines|
    ensures OwnerOf(lines[..n], i) == OwnerOf(lines, i)
  {
    assert lines[..n][..i + 1] == lines[..i + 1];
  }

  lemma RowsSnoc<H, R>(lines: seq<Line<H, R>>, k: int)
    requires |lines| > 0
    ensures var n := |lines| - 1;
            && n !in RowsOf(lines[..n], k)
            && RowsOf(lines, k) == RowsOf(lines[..n], k) + if lines[n].Data? && Opened(lines) - 1 == k then {n} else {}
  {
    var n := |lines| - 1;
    assert lines[..n + 1] == lines;
    assert OwnerOf(lines, n) == Opened(lines) - 1;
    forall i: nat | i < n
      ensures OwnerOf(lines[..n], i) == OwnerOf(lines, i)
    {
      SameOwner(lines, n, i);
    }
    hide Opened, OwnerOf;
  }

  lemma {:induction false} AsManyRows<H, R>(lines: seq<Line<H, R>>, k: int)
    ensures |OwnedRows(lines, k)| == |RowsOf(lines, k)|
  {
    if |lines| > 0 {
      AsManyRows(lines[..|lines| - 1], k);
      RowsSnoc(lines, k);
      hide RowsOf, Opened;
    } else {
      assert RowsOf(lines, k) == {};
    }
  }

  lemma {:induction false} RowIsOwned<H, R>(lines: seq<Line<H, R>>, k: int, i: nat)
    requires i < |lines| && lines[i].Data? && OwnerOf(lines, i) == k
    ensures var place := |OwnedRows(lines[..i], k)|;
            place < |OwnedRows(lines, k)| && OwnedRows(lines, k)[place] == lines[i].row
  {
    hide Opened;
    var n := |lines| - 1;
    if i < n {
      assert lines[..n][..i] == lines[..i] && lines[..n][..i + 1] == lines[..i + 1];
      RowIsOwned(lines[..n], k, i);
    } else {
      assert lines[..n + 1] == lines;
    }
  }

  /** Each of them is in its session's rows, at the place its line has among them, and nothing else is. */
  lemma OwnedRowsAre<H, R>(lines: seq<Line<H, R>>, k: int, i: nat)
    requires i in RowsOf(lines, k)
    ensures |OwnedRows(lines, k)| == |RowsOf(lines, k)|
    ensures var place := |RowsOf(lines[..i], k)|;
            place < |OwnedRows(lines, k)| && OwnedRows(lines, k)[place] == lines[i].row
  {
    AsManyRows(lines, k);
    AsManyRows(lines[..i], k);
    hide OwnedRows, OwnerOf;
    RowIsOwned(lines, k, i);
  }

  /** A session carries the header of the line that starts it, and is marked truncated if instead a data row
      behind an unreadable record does. */
  lemma {:induction false} OpenerIsStart<H, R>(lines: seq<Line<H, R>>, k: nat)
    requires k < Opened(lines)
    ensures exists i :: && 0 <= i < |lines| && StartsSession(lines, i) && |Starts(lines[..i])| == k
                        && OpenerOf(lines, k) == if lines[i].Header? then (Some(lines[i].header), false)
                                                 else (None, BehindUnreadable(lines, i))
  {
    var n := |lines| - 1;
    var front := lines[..n];
    SessionsAreStarts(front);
    SessionsAreStarts(lines);
    if k < Opened(front) {
      OpenerIsStart(front, k);
      var i :| && 0 <= i < n && StartsSession(front, i) && |Starts(front[..i])| == k
               && OpenerOf(front, k) == if front[i].Header? then (Some(front[i].header), false)
                                        else (None, BehindUnreadable(front, i));
      StartsSnoc(lines);
      SameBehind(lines, n, i);
      assert front[..i] == lines[..i];
      assert i in Starts(front) && i in Starts(lines);
    } else {
      StartsSnoc(lines);
      PendingIff(front);
      SameBehind(lines, n, n);
      assert StartsSession(lines, n);
    }
  }

  lemma {:induction false} MalformedIsCount<H, R>(lines: seq<Line<H, R>>)
    ensures Malformed(lines) == |set i: nat | i < |lines| && lines[i].Unreadable?|
  {
    var bad := set i: nat | i < |lines| && lines[i].Unreadable?;
    if |lines| > 0 {
      var n := |lines| - 1;
      MalformedIsCount(lines[..n]);
      var was := set i: nat | i < n && lines[..n][i].Unreadable?;
      assert bad == was + if lines[n].Unreadable? then {n} else {};
      assert n !in was;
    } else {
      assert bad == {};
    }
  }
}
