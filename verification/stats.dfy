/** The statistics interpreter: a value slot that is set once, read and
    reset, plus two ways of filling it from a gem5 `stats.txt` file. */
module Stats {
  import opened Wrappers

  /** Which class the statistic was made as: the base `Stat` leaves reading
      from a file unimplemented. */
  datatype StatKind = BaseStat | RootStat | AggregateStat

  /** A statistic: its name and `_value`, where `None` is Python's None. */
  datatype Stat = Stat(kind: StatKind, name: string, value: Option<real>)

  /** A whitespace-separated token of a line of the file, with the number
      `float()` reads from it, or `None` when `float()` raises. */
  datatype Token = Token(text: string, number: Option<real>)

  /** A line of the file, as `line.split()` gives it. */
  type Line = seq<Token>

  datatype StatError =
    | AlreadySet          // ValueError from set_value
    | NotSet              // ValueError from get_value / reset
    | NotImplemented      // the abstract set_value_from_stat_file of Stat
    | MissingToken        // IndexError from line.split()[0] or [1]
    | NotANumber          // ValueError from float()
    | NotFound(name: string)

  /** `Stat(name)` (and the subclass constructors): the value starts unset. */
  function NewStat(kind: StatKind, name: string): (s: Stat)
    ensures s.value.None? && s.name == name && s.kind == kind
  {
    Stat(kind, name, None)
  }

  /** `set_value`: only an unset statistic accepts a value. */
  function SetValue(s: Stat, v: Option<real>): (r: Result<Stat, StatError>)
    ensures r.Ok? <==> s.value.None?
    ensures r.Err? ==> r.error == AlreadySet
    ensures r.Ok? ==> r.value.value == v && r.value.name == s.name && r.value.kind == s.kind
  {
    if s.value.Some? then Err(AlreadySet) else Ok(s.(value := v))
  }

  /** `get_value`: the stored value, or an error when there is none. */
  function GetValue(s: Stat): (r: Result<real, StatError>)
    ensures r.Ok? <==> s.value.Some?
    ensures r.Ok? ==> s.value == Some(r.value)
    ensures r.Err? ==> r.error == NotSet
  {
    match s.value
    case None => Err(NotSet)
    case Some(v) => Ok(v)
  }

  /** `reset`: clears a set statistic; an unset one is an error. */
  function Reset(s: Stat): (r: Result<Stat, StatError>)
    ensures r.Ok? <==> s.value.Some?
    ensures r.Err? ==> r.error == NotSet
    ensures r.Ok? ==> r.value.value.None? && r.value.name == s.name && r.value.kind == s.kind
  {
    if s.value.None? then Err(NotSet) else Ok(s.(value := None))
  }

  /** A value set on a fresh statistic reads back unchanged. */
  lemma SetThenGet(kind: StatKind, name: string, v: real)
    ensures SetValue(NewStat(kind, name), Some(v)).Ok?
    ensures GetValue(SetValue(NewStat(kind, name), Some(v)).value) == Ok(v)
  {
  }

  /** A second `set_value` is refused and reports the double set. */
  lemma SetTwiceFails(s: Stat, v: real, w: Option<real>)
    requires SetValue(s, Some(v)).Ok?
    ensures SetValue(SetValue(s, Some(v)).value, w) == Err(AlreadySet)
  {
  }

  /** After a successful `reset` the statistic is unset again: reading fails
      and a new `set_value` succeeds. */
  lemma ResetThenSet(s: Stat, v: Option<real>)
    requires Reset(s).Ok?
    ensures GetValue(Reset(s).value) == Err(NotSet)
    ensures SetValue(Reset(s).value, v) == Ok(s.(value := v))
  {
  }

  // ---------------------------------------------------------------------------
  // Reading from the file.

  /** Python's clamping of a slice bound `i` on a list of length `len`. */
  function SliceBound(i: int, len: nat): (b: nat)
    ensures b <= len
    ensures 0 <= i <= len ==> b == i
    ensures -(len as int) <= i < 0 ==> b == len + i
    ensures i > len ==> b == len
    ensures i < -(len as int) ==> b == 0
  {
    if i < 0 then (if i + len < 0 then 0 else i + len)
    else if i > len then len else i
  }

  /** `lines[lo:hi]` with Python's slice semantics. */
  function PySlice<T>(lines: seq<T>, lo: int, hi: int): seq<T>
  {
    var a := SliceBound(lo, |lines|);
    var b := SliceBound(hi, |lines|);
    if a < b then lines[a..b] else []
  }

  /** `readlines()[2:10]`: where the top-level statistics are. */
  function RootWindow(lines: seq<Line>): (w: seq<Line>)
    ensures |lines| >= 10 ==> w == lines[2..10]
    ensures 2 < |lines| < 10 ==> w == lines[2..]
    ensures |lines| <= 2 ==> w == []
  {
    PySlice(lines, 2, 10)
  }

  /** `readlines()[10:-3]`: the per-object statistics, without the last three lines. */
  function AggregateWindow(lines: seq<Line>): (w: seq<Line>)
    ensures |lines| > 13 ==> w == lines[10..|lines| - 3]
    ensures |lines| <= 13 ==> w == []
  {
    PySlice(lines, 10, -3)
  }

  /** `s.split(".")[-1]`: what follows the last dot, or all of `s`. */
  function LastComponent(s: string): string
  {
    if |s| == 0 then ""
    else if s[|s| - 1] == '.' then ""
    else LastComponent(s[..|s| - 1]) + [s[|s| - 1]]
  }

  /** The last component is a dot-free suffix of `s`, preceded by a dot
      unless it is all of `s`. */
  lemma {:induction false} LastComponentSuffix(s: string)
    ensures var r := LastComponent(s);
      && |r| <= |s| && r == s[|s| - |r|..]
      && '.' !in r
      && (|r| < |s| ==> s[|s| - |r| - 1] == '.')
    decreases |s|
  {
    if |s| > 0 && s[|s| - 1] != '.' {
      var p := s[..|s| - 1];
      LastComponentSuffix(p);
      assert s[|s| - |LastComponent(s)|..] == p[|p| - |LastComponent(p)|..] + [s[|s| - 1]];
    }
  }

  /** The loop of `RootStat.set_value_from_stat_file`, from the line
      `window[0]` on, with `ret` and `instances` as the loop leaves them. */
  function RootScan(name: string, window: seq<Line>, ret: real, instances: nat): (r: Result<(real, nat), StatError>)
    ensures r.Err? ==> r.error == MissingToken || r.error == NotANumber
    ensures r.Ok? ==> r.value.1 >= instances
    decreases |window|
  {
    if window == [] then Ok((ret, instances))
    else
      var line := window[0];
      if |line| == 0 then Err(MissingToken)
      else if line[0].text != name then RootScan(name, window[1..], ret, instances)
      else if |line| < 2 then Err(MissingToken)
      else if line[1].number.None? then Err(NotANumber)
      else RootScan(name, window[1..], line[1].number.value, instances + 1)
  }

  /** The loop of `AggregateStat.set_value_from_stat_file`: as `RootScan`, but
      matching the last dotted component and adding up the values. */
  function AggregateScan(name: string, window: seq<Line>, ret: real, instances: nat): (r: Result<(real, nat), StatError>)
    ensures r.Err? ==> r.error == MissingToken || r.error == NotANumber
    ensures r.Ok? ==> r.value.1 >= instances
    decreases |window|
  {
    if window == [] then Ok((ret, instances))
    else
      var line := window[0];
      if |line| == 0 then Err(MissingToken)
      else if LastComponent(line[0].text) != name then AggregateScan(name, window[1..], ret, instances)
      else if |line| < 2 then Err(MissingToken)
      else if line[1].number.None? then Err(NotANumber)
      else AggregateScan(name, window[1..], ret + line[1].number.value, instances + 1)
  }

  /** `set_value_from_stat_file`. On success it writes the value directly,
      whether or not one was already set. */
  function SetValueFromStatFile(s: Stat, lines: seq<Line>): (r: Result<Stat, StatError>)
    ensures s.kind == BaseStat ==> r == Err(NotImplemented)
    ensures r.Ok? ==> r.value.name == s.name && r.value.kind == s.kind && r.value.value.Some?
  {
    match s.kind
    case BaseStat => Err(NotImplemented)
    case RootStat =>
      var (ret, instances) :- RootScan(s.name, RootWindow(lines), 0.0, 0);
      if instances == 0 then Err(NotFound(s.name)) else Ok(s.(value := Some(ret)))
    case AggregateStat =>
      var (ret, instances) :- AggregateScan(s.name, AggregateWindow(lines), 0.0, 0);
      if instances == 0 then Err(NotFound(s.name)) else Ok(s.(value := Some(ret)))
  }

  // ---------------------------------------------------------------------------
  // What the scans compute, stated without the loop.

  /** The statistic name a line carries, for each kind of statistic. */
  function KeyOf(kind: StatKind, line: Line): string
    requires |line| > 0
  {
    if kind == AggregateStat then LastComponent(line[0].text) else line[0].text
  }

  predicate IsMatch(kind: StatKind, name: string, line: Line)
  {
    |line| > 0 && KeyOf(kind, line) == name
  }

  /** A window the loop reads to its end: no blank line, and every matching
      line has a second token that is a number. */
  predicate Readable(kind: StatKind, name: string, window: seq<Line>)
  {
    forall k :: 0 <= k < |window| ==>
      |window[k]| > 0 && (IsMatch(kind, name, window[k]) ==> |window[k]| >= 2 && window[k][1].number.Some?)
  }

  /** The value of a matching line. */
  function ValueOf(line: Line): real
    requires |line| >= 2 && line[1].number.Some?
  {
    line[1].number.value
  }

  function CountMatches(kind: StatKind, name: string, window: seq<Line>): nat
  {
    if window == [] then 0
    else (if IsMatch(kind, name, window[0]) then 1 else 0) + CountMatches(kind, name, window[1..])
  }

  /** The sum of the values of the matching lines. */
  function Total(name: string, window: seq<Line>): real
    requires Readable(AggregateStat, name, window)
  {
    if window == [] then 0.0
    else
      ReadableTail(AggregateStat, name, window);
      (if IsMatch(AggregateStat, name, window[0]) then ValueOf(window[0]) else 0.0) + Total(name, window[1..])
  }

  /** Line k is the last line of the window that matches. */
  predicate IsLastMatch(kind: StatKind, name: string, window: seq<Line>, k: int)
  {
    && 0 <= k < |window| && IsMatch(kind, name, window[k])
    && forall j :: k < j < |window| ==> !IsMatch(kind, name, window[j])
  }

  lemma ReadableTail(kind: StatKind, name: string, window: seq<Line>)
    requires window != [] && Readable(kind, name, window)
    ensures Readable(kind, name, window[1..])
  {
    forall k | 0 <= k < |window[1..]|
      ensures |window[1..][k]| > 0
    {
      assert window[1..][k] == window[k + 1];
    }
  }

  /** A window is readable exactly when its first line is and the rest of
      it is. */
  lemma ReadableCons(kind: StatKind, name: string, window: seq<Line>)
    requires window != []
    ensures Readable(kind, name, window) <==>
      && |window[0]| > 0
      && (IsMatch(kind, name, window[0]) ==> |window[0]| >= 2 && window[0][1].number.Some?)
      && Readable(kind, name, window[1..])
  {
    assert forall k :: 0 <= k < |window[1..]| ==> window[1..][k] == window[k + 1];
    if |window[0]| > 0 && (IsMatch(kind, name, window[0]) ==> |window[0]| >= 2 && window[0][1].number.Some?)
       && Readable(kind, name, window[1..]) {
      forall k | 0 <= k < |window|
        ensures |window[k]| > 0
        ensures IsMatch(kind, name, window[k]) ==> |window[k]| >= 2 && window[k][1].number.Some?
      {
        if k > 0 {
          assert window[k] == window[1..][k - 1];
        }
      }
    }
  }

  /** The root loop fails exactly on an unreadable window. */
  lemma {:induction false} RootScanOk(name: string, window: seq<Line>, ret: real, instances: nat)
    ensures RootScan(name, window, ret, instances).Ok? <==> Readable(RootStat, name, window)
    decreases |window|
  {
    if window != [] {
      var line := window[0];
      ReadableCons(RootStat, name, window);
      if |line| > 0 && line[0].text != name {
        RootScanOk(name, window[1..], ret, instances);
      } else if |line| >= 2 && line[1].number.Some? {
        RootScanOk(name, window[1..], line[1].number.value, instances + 1);
      }
    }
  }

  /** On a readable window the root loop counts the matching lines. */
  lemma {:induction false} RootScanCount(name: string, window: seq<Line>, ret: real, instances: nat)
    requires Readable(RootStat, name, window)
    ensures RootScan(name, window, ret, instances).Ok?
    ensures RootScan(name, window, ret, instances).value.1 == instances + CountMatches(RootStat, name, window)
    decreases |window|
  {
    if window != [] {
      var line := window[0];
      ReadableCons(RootStat, name, window);
      if line[0].text != name {
        RootScanCount(name, window[1..], ret, instances);
      } else {
        RootScanCount(name, window[1..], line[1].number.value, instances + 1);
      }
    }
  }

  /** On a readable window the root loop leaves `ret` alone when nothing
      matches. */
  lemma {:induction false} RootScanNone(name: string, window: seq<Line>, ret: real, instances: nat)
    requires Readable(RootStat, name, window)
    requires forall j :: 0 <= j < |window| ==> !IsMatch(RootStat, name, window[j])
    ensures RootScan(name, window, ret, instances) == Ok((ret, instances))
    decreases |window|
  {
    if window != [] {
      ReadableCons(RootStat, name, window);
      assert !IsMatch(RootStat, name, window[0]);
      assert forall j :: 0 <= j < |window[1..]| ==> window[1..][j] == window[j + 1];
      RootScanNone(name, window[1..], ret, instances);
    }
  }

  /** On a readable window the root loop keeps the value of the last
      matching line. */
  lemma {:induction false} RootScanLast(name: string, window: seq<Line>, ret: real, instances: nat, k: int)
    requires Readable(RootStat, name, window)
    requires IsLastMatch(RootStat, name, window, k)
    ensures RootScan(name, window, ret, instances).Ok?
    ensures RootScan(name, window, ret, instances).value.0 == ValueOf(window[k])
    decreases |window|
  {
    var line := window[0];
    var rest := window[1..];
    ReadableCons(RootStat, name, window);
    assert forall j :: 0 <= j < |rest| ==> rest[j] == window[j + 1];
    if k > 0 {
      assert IsLastMatch(RootStat, name, rest, k - 1);
      if line[0].text != name {
        RootScanLast(name, rest, ret, instances, k - 1);
      } else {
        RootScanLast(name, rest, line[1].number.value, instances + 1, k - 1);
      }
    } else {
      RootScanNone(name, rest, line[1].number.value, instances + 1);
    }
  }

  lemma {:induction false} NoMatchNoCount(kind: StatKind, name: string, window: seq<Line>)
    requires forall j :: 0 <= j < |window| ==> !IsMatch(kind, name, window[j])
    ensures CountMatches(kind, name, window) == 0
    decreases |window|
  {
    if window != [] {
      assert forall j :: 0 <= j < |window[1..]| ==> window[1..][j] == window[j + 1];
      NoMatchNoCount(kind, name, window[1..]);
    }
  }

  lemma {:induction false} SomeMatchCounts(kind: StatKind, name: string, window: seq<Line>, k: int)
    requires 0 <= k < |window| && IsMatch(kind, name, window[k])
    ensures CountMatches(kind, name, window) > 0
    decreases |window|
  {
    if k > 0 {
      assert window[1..][k - 1] == window[k];
      SomeMatchCounts(kind, name, window[1..], k - 1);
    }
  }

  /** No line matches exactly when the count of matches is zero. */
  lemma CountZeroIff(kind: StatKind, name: string, window: seq<Line>)
    ensures CountMatches(kind, name, window) == 0
            <==> forall k :: 0 <= k < |window| ==> !IsMatch(kind, name, window[k])
  {
    if forall k :: 0 <= k < |window| ==> !IsMatch(kind, name, window[k]) {
      NoMatchNoCount(kind, name, window);
    } else {
      var k :| 0 <= k < |window| && IsMatch(kind, name, window[k]);
      SomeMatchCounts(kind, name, window, k);
    }
  }

  /** The aggregate loop fails exactly on an unreadable window. */
  lemma {:induction false} AggregateScanOk(name: string, window: seq<Line>, ret: real, instances: nat)
    ensures AggregateScan(name, window, ret, instances).Ok? <==> Readable(AggregateStat, name, window)
    decreases |window|
  {
    if window != [] {
      var line := window[0];
      ReadableCons(AggregateStat, name, window);
      if |line| > 0 && LastComponent(line[0].text) != name {
        AggregateScanOk(name, window[1..], ret, instances);
      } else if |line| >= 2 && line[1].number.Some? {
        AggregateScanOk(name, window[1..], ret + line[1].number.value, instances + 1);
      }
    }
  }

  /** On a readable window the aggregate loop adds the total of the matching
      values to `ret` and counts the matching lines. */
  lemma {:induction false} AggregateScanSum(name: string, window: seq<Line>, ret: real, instances: nat)
    requires Readable(AggregateStat, name, window)
    ensures AggregateScan(name, window, ret, instances)
            == Ok((ret + Total(name, window), instances + CountMatches(AggregateStat, name, window)))
    decreases |window|
  {
    if window != [] {
      var line := window[0];
      ReadableCons(AggregateStat, name, window);
      if LastComponent(line[0].text) != name {
        AggregateScanSum(name, window[1..], ret, instances);
      } else {
        AggregateScanSum(name, window[1..], ret + line[1].number.value, instances + 1);
      }
    }
  }

  /** `RootStat.set_value_from_stat_file` on a readable window of lines 2..9:
      not found exactly when no line's first token is the name; otherwise the
      value of the last such line, overwriting any value already set. */
  lemma RootStatFromFile(s: Stat, lines: seq<Line>)
    requires s.kind == RootStat
    requires Readable(RootStat, s.name, RootWindow(lines))
    ensures var w := RootWindow(lines);
            SetValueFromStatFile(s, lines) == Err(NotFound(s.name))
            <==> forall k :: 0 <= k < |w| ==> !IsMatch(RootStat, s.name, w[k])
    ensures forall k :: IsLastMatch(RootStat, s.name, RootWindow(lines), k) ==>
              SetValueFromStatFile(s, lines) == Ok(s.(value := Some(ValueOf(RootWindow(lines)[k]))))
  {
    var w := RootWindow(lines);
    RootScanCount(s.name, w, 0.0, 0);
    forall k | IsLastMatch(RootStat, s.name, w, k)
      ensures RootScan(s.name, w, 0.0, 0).value.0 == ValueOf(w[k])
    {
      RootScanLast(s.name, w, 0.0, 0, k);
    }
    CountZeroIff(RootStat, s.name, w);
  }

  /** `AggregateStat.set_value_from_stat_file` on a readable window of lines
      10..len-4: not found exactly when no line's last dotted component is the
      name; otherwise the sum of the values of all such lines. */
  lemma AggregateStatFromFile(s: Stat, lines: seq<Line>)
    requires s.kind == AggregateStat
    requires Readable(AggregateStat, s.name, AggregateWindow(lines))
    ensures var w := AggregateWindow(lines);
            SetValueFromStatFile(s, lines) == Err(NotFound(s.name))
            <==> forall k :: 0 <= k < |w| ==> !IsMatch(AggregateStat, s.name, w[k])
    ensures var w := AggregateWindow(lines);
            (exists k :: 0 <= k < |w| && IsMatch(AggregateStat, s.name, w[k])) ==>
              SetValueFromStatFile(s, lines) == Ok(s.(value := Some(Total(s.name, w))))
  {
    var w := AggregateWindow(lines);
    AggregateScanSum(s.name, w, 0.0, 0);
    CountZeroIff(AggregateStat, s.name, w);
  }

  /** Reading a root statistic from the file fails with an error other than
      not-found, whatever the statistic's state, exactly when the window has
      a blank line or a matching line without a number. */
  lemma RootStatFileFails(s: Stat, lines: seq<Line>)
    requires s.kind == RootStat
    ensures (SetValueFromStatFile(s, lines).Err? && SetValueFromStatFile(s, lines) != Err(NotFound(s.name)))
            <==> !Readable(RootStat, s.name, RootWindow(lines))
  {
    RootScanOk(s.name, RootWindow(lines), 0.0, 0);
  }
}
