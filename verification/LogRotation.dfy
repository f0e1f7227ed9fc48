/**
 The deletion loop of ios/WarrenLogging/LogRotation.swift.  The running total is a 64-bit unsigned sum
 that traps on overflow and goes on counting files after they are deleted.
 */
module LogRotation {

  const WORD: nat := 0x1_0000_0000_0000_0000

  datatype LogData = LogData(path: string, size: nat, created: int)

  /** How the loop ends: through, with a removal that threw, or trapped in the sum. */
  datatype Ending = Through | RemovalFailed(at: nat) | Overflowed(at: nat)

  function Total(logs: seq<LogData>): (t: nat) {
    if logs == [] then 0 else Total(logs[..|logs| - 1]) + logs[|logs| - 1].size
  }

  ghost predicate NewestFirst(logs: seq<LogData>) {
    forall i, j :: 0 <= i < j < |logs| ==> logs[i].created >= logs[j].created
  }

  /** The listing names each file once. */
  ghost predicate Distinct(logs: seq<LogData>) {
    forall i, j :: 0 <= i < j < |logs| ==> logs[i].path != logs[j].path
  }

  /** The first `n` logs are within the size limit and recent enough. */
  ghost predicate Within(logs: seq<LogData>, date: int, limit: int, n: nat)
    requires n <= |logs|
  {
    Total(logs[..n]) <= limit && forall i :: 0 <= i < n ==> logs[i].created >= date
  }

  /** `n` logs form the longest prefix worth keeping. */
  ghost predicate Longest(logs: seq<LogData>, date: int, limit: int, n: nat) {
    && n <= |logs|
    && (n == 0 || Within(logs, date, limit, n))
    && (forall m :: n < m <= |logs| ==> !Within(logs, date, limit, m))
  }

  /** The loop's own test on one log. */
  predicate Doomed(logs: seq<LogData>, date: int, limit: int, i: nat)
    requires i < |logs|
  {
    logs[i].created < date || Total(logs[..i + 1]) > limit
  }

  function Paths(logs: seq<LogData>): set<string> {
    set i | 0 <= i < |logs| :: logs[i].path
  }

  lemma TotalStep(logs: seq<LogData>, i: nat)
    requires i < |logs|
    ensures Total(logs[..i + 1]) == Total(logs[..i]) + logs[i].size
  {
    assert logs[..i + 1][..i] == logs[..i];
  }

  lemma {:induction false} TotalGrows(logs: seq<LogData>, i: nat, j: nat)
    requires i <= j <= |logs|
    ensures Total(logs[..i]) <= Total(logs[..j])
    decreases j
  {
    if i < j {
      TotalGrows(logs, i, j - 1);
      TotalStep(logs, j - 1);
    }
  }

  /** Once a log is doomed so is every older one. */
  lemma DoomSpreads(logs: seq<LogData>, date: int, limit: int, i: nat, j: nat)
    requires NewestFirst(logs) && i <= j < |logs| && Doomed(logs, date, limit, i)
    ensures Doomed(logs, date, limit, j)
  {
    TotalGrows(logs, i + 1, j + 1);
  }

  lemma SparedWithin(logs: seq<LogData>, date: int, limit: int, i: nat)
    requires NewestFirst(logs) && i < |logs| && !Doomed(logs, date, limit, i)
    ensures Within(logs, date, limit, i + 1)
  {
    forall k | 0 <= k < i + 1
      ensures logs[k].created >= date
    {
      if Doomed(logs, date, limit, k) {
        DoomSpreads(logs, date, limit, k, i);
      }
    }
  }

  /** With the newest first, the test on single logs draws the line of the longest prefix. */
  lemma DoomedExactly(logs: seq<LogData>, date: int, limit: int, n: nat, i: nat)
    requires NewestFirst(logs) && Longest(logs, date, limit, n) && i < |logs|
    ensures Doomed(logs, date, limit, i) <==> n <= i
  {
    if i < n {
      TotalGrows(logs, i + 1, n);
    } else if !Doomed(logs, date, limit, i) {
      SparedWithin(logs, date, limit, i);
    }
  }

  /** There is a longest prefix. */
  lemma {:induction false} LongestExists(logs: seq<LogData>, date: int, limit: int, k: nat) returns (n: nat)
    requires k <= |logs|
    requires forall m :: k < m <= |logs| ==> !Within(logs, date, limit, m)
    ensures Longest(logs, date, limit, n)
  {
    if k == 0 || Within(logs, date, limit, k) {
      n := k;
    } else {
      n := LongestExists(logs, date, limit, k - 1);
    }
  }

  /** The paths of the doomed among the first `i` logs. */
  function DoomedPaths(logs: seq<LogData>, date: int, limit: int, i: nat): set<string>
    requires i <= |logs|
  {
    set k | 0 <= k < i && Doomed(logs, date, limit, k) :: logs[k].path
  }

  lemma DoomedPathsStep(logs: seq<LogData>, date: int, limit: int, i: nat)
    requires i < |logs|
    ensures DoomedPaths(logs, date, limit, i + 1) ==
      DoomedPaths(logs, date, limit, i) + (if Doomed(logs, date, limit, i) then {logs[i].path} else {})
  {
  }

  /**
   The loop.  `removable` says which removals succeed.  It reports through which logs it came, and the
   disk has lost exactly the doomed ones among them.
   */
  method DeleteLogs(date: int, limit: int, logs: seq<LogData>, disk: set<string>, removable: string -> bool)
    returns (left: set<string>, ending: Ending)
    requires forall i :: 0 <= i < |logs| ==> logs[i].size < WORD
    ensures ending.Through? <==>
      && Total(logs) < WORD
      && forall i :: 0 <= i < |logs| && Doomed(logs, date, limit, i) ==> removable(logs[i].path)
    ensures ending.Through? ==> left == disk - DoomedPaths(logs, date, limit, |logs|)
    ensures !ending.Through? ==> ending.at < |logs| && left == disk - DoomedPaths(logs, date, limit, ending.at)
    ensures ending.RemovalFailed? ==>
      Doomed(logs, date, limit, ending.at) && !removable(logs[ending.at].path) && Total(logs[..ending.at + 1]) < WORD
    ensures ending.Overflowed? ==> Total(logs[..ending.at + 1]) >= WORD
  {
    var total := 0;
    left := disk;
    for i := 0 to |logs|
      invariant total == Total(logs[..i]) < WORD
      invariant left == disk - DoomedPaths(logs, date, limit, i)
      invariant forall k :: 0 <= k < i && Doomed(logs, date, limit, k) ==> removable(logs[k].path)
    {
      TotalStep(logs, i);
      if total + logs[i].size >= WORD {
        TotalGrows(logs, i + 1, |logs|);
        assert logs[..|logs|] == logs;
        return left, Overflowed(i);
      }
      total := total + logs[i].size;
      var tooOld := logs[i].created < date;
      var exceeded := total > limit;
      if tooOld || exceeded {
        if !removable(logs[i].path) {
          return left, RemovalFailed(i);
        }
        left := left - {logs[i].path};
      }
      DoomedPathsStep(logs, date, limit, i);
    }
    assert logs[..|logs|] == logs;
    ending := Through;
  }

  /** When the loop comes through, what remains of the listing is exactly the longest prefix worth keeping. */
  lemma KeepsLongestPrefix(logs: seq<LogData>, date: int, limit: int, n: nat, disk: set<string>)
    requires NewestFirst(logs) && Distinct(logs) && Longest(logs, date, limit, n)
    requires disk >= Paths(logs)
    ensures var left := disk - DoomedPaths(logs, date, limit, |logs|);
      && left == disk - Paths(logs[n..])
      && Paths(logs[..n]) <= left && Paths(logs[n..]) !! left
  {
    forall i | 0 <= i < |logs|
      ensures Doomed(logs, date, limit, i) <==> n <= i
    {
      DoomedExactly(logs, date, limit, n, i);
    }
    var doomed, rest := DoomedPaths(logs, date, limit, |logs|), logs[n..];
    forall p | p in doomed
      ensures p in Paths(rest)
    {
      var k :| 0 <= k < |logs| && Doomed(logs, date, limit, k) && logs[k].path == p;
      assert rest[k - n].path == p;
    }
    forall p | p in Paths(rest)
      ensures p in doomed
    {
      var k :| 0 <= k < |rest| && rest[k].path == p;
      assert Doomed(logs, date, limit, n + k) && logs[n + k].path == p;
    }
    assert doomed == Paths(rest);
    forall p | p in Paths(logs[..n])
      ensures p in disk && p !in Paths(rest)
    {
      var k :| 0 <= k < n && logs[k].path == p;
      assert p in Paths(logs);
    }
  }

  /** A second rotation finds nothing to delete. */
  lemma SecondRotationKeepsAll(logs: seq<LogData>, date: int, limit: int, n: nat)
    requires NewestFirst(logs) && Longest(logs, date, limit, n)
    ensures Longest(logs[..n], date, limit, n) && DoomedPaths(logs[..n], date, limit, n) == {}
  {
    var kept := logs[..n];
    assert kept[..n] == kept;
    forall i | 0 <= i < n
      ensures !Doomed(kept, date, limit, i)
    {
      assert kept[..i + 1] == logs[..i + 1];
      DoomedExactly(logs, date, limit, n, i);
    }
  }

  /** The rotation of a listing, newest first: when the loop comes through, exactly the longest prefix
      worth keeping is left. */
  method RotateLogs(date: int, limit: int, logs: seq<LogData>, disk: set<string>, removable: string -> bool)
    returns (left: set<string>, ending: Ending)
    requires NewestFirst(logs) && Distinct(logs) && disk >= Paths(logs)
    requires forall i :: 0 <= i < |logs| ==> logs[i].size < WORD
    ensures ending.Through? ==> exists n: nat :: Longest(logs, date, limit, n) && left == disk - Paths(logs[n..])
    ensures ending.Through? ==> Total(logs) < 0x1_0000_0000_0000_0000
    ensures ending.Through? <== Total(logs) < 0x1_0000_0000_0000_0000 && forall i :: 0 <= i < |logs| ==> removable(logs[i].path)
    ensures left <= disk && disk - left <= Paths(logs)
  {
    left, ending := DeleteLogs(date, limit, logs, disk, removable);
    ghost var n := LongestExists(logs, date, limit, |logs|);
    KeepsLongestPrefix(logs, date, limit, n, disk);
  }
}
