/** The problem tracker of the backend (backend/app.py): the points each
    difficulty is worth, the partial update `update_problem` assembles, the
    running total `analytics_points_over_time` reports day by day, and the
    total `analytics_summary` reports. The SQL queries themselves are read as
    their results, given here as input sequences. */
module Problems {
  import opened Wrappers

  /** A scalar of a JSON request body. */
  datatype Json = JNull | JBool(b: bool) | JInt(i: int) | JStr(s: string)

  /** `{'Easy': 10, 'Medium': 25, 'Hard': 50}.get(difficulty, 10)`: only the
      exact strings "Medium" and "Hard" are worth more than the default. */
  function Points(difficulty: Json): (p: int)
    ensures p == 10 || p == 25 || p == 50
    ensures p == 25 <==> difficulty == JStr("Medium")
    ensures p == 50 <==> difficulty == JStr("Hard")
  {
    match difficulty
    case JStr("Easy") => 10
    case JStr("Medium") => 25
    case JStr("Hard") => 50
    case _ => 10
  }

  // ---------------------------------------------------------------------------
  // update_problem

  const NoFieldsToUpdate := "No fields to update"

  /** Every column an update can set, in the order its clause can appear:
      the columns of each body key `update_problem` tests, in the order it
      tests them. */
  const Columns: seq<string> := ["number"] + ["name"] + ["difficulty", "points"] + ["topic"] + ["summary"] + ["notes"]

  /** The SET clauses and the query parameters of an UPDATE statement. */
  datatype Update = Update(clauses: seq<string>, values: seq<Json>)

  /** Whether an update whose body has `keys` sets `column`: a column is set
      when its key is in the body, and `points` when `difficulty` is. */
  predicate Selected(keys: set<string>, column: string)
  {
    if column == "points" then "difficulty" in keys else column in keys
  }

  /** The columns of `cs` that an update with body keys `keys` sets, in the order of `cs`. */
  function SelectedColumns(keys: set<string>, cs: seq<string>): seq<string>
  {
    if cs == [] then []
    else (if Selected(keys, cs[0]) then [cs[0]] else []) + SelectedColumns(keys, cs[1..])
  }

  /** The clauses `update_problem` appends for body key `key`: none when the key
      is absent, and for a difficulty its clause followed by the points clause. */
  function ColumnsFor(keys: set<string>, key: string): seq<string>
  {
    if key !in keys then []
    else if key == "difficulty" then ["difficulty", "points"]
    else [key]
  }

  /** The SET clause of one column: `column = %s`. */
  function Clause(column: string): string
  {
    column + " = %s"
  }

  /** The value bound to column `column`: the body's value, or for `points`
      the points of the body's difficulty. */
  function ColumnValue(data: map<string, Json>, column: string): Json
  {
    if column == "points" then (if "difficulty" in data then JInt(Points(data["difficulty"])) else JNull)
    else if column in data then data[column]
    else JNull
  }

  /** The six tests of `update_problem`, one after the other, append exactly
      the selected columns in the fixed column order. */
  lemma SixTestsSelectColumns(keys: set<string>)
    ensures SelectedColumns(keys, Columns)
      == ColumnsFor(keys, "number") + ColumnsFor(keys, "name") + ColumnsFor(keys, "difficulty")
         + ColumnsFor(keys, "topic") + ColumnsFor(keys, "summary") + ColumnsFor(keys, "notes")
  {
    var a, b, c, d, e, f := ["number"], ["name"], ["difficulty", "points"], ["topic"], ["summary"], ["notes"];
    SelectedAppend(keys, a + b + c + d + e, f);
    SelectedAppend(keys, a + b + c + d, e);
    SelectedAppend(keys, a + b + c, d);
    SelectedAppend(keys, a + b, c);
    SelectedAppend(keys, a, b);
    SelectedSingle(keys, "number");
    SelectedSingle(keys, "name");
    SelectedSingle(keys, "topic");
    SelectedSingle(keys, "summary");
    SelectedSingle(keys, "notes");
    SelectedDifficulty(keys);
  }

  /** The difficulty key contributes the difficulty and the points columns together. */
  lemma SelectedDifficulty(keys: set<string>)
    ensures SelectedColumns(keys, ["difficulty", "points"]) == ColumnsFor(keys, "difficulty")
  {
    SelectedPair(keys, "difficulty", "points");
  }

  lemma SelectedPair(keys: set<string>, x: string, y: string)
    ensures SelectedColumns(keys, [x, y])
            == (if Selected(keys, x) then [x] else []) + (if Selected(keys, y) then [y] else [])
  {
    assert [x, y][1..] == [y] && [y][1..] == [];
    assert SelectedColumns(keys, [y]) == (if Selected(keys, y) then [y] else []) + SelectedColumns(keys, []);
  }

  /** Filtering distributes over concatenation. */
  lemma {:induction false} SelectedAppend(keys: set<string>, a: seq<string>, b: seq<string>)
    ensures SelectedColumns(keys, a + b) == SelectedColumns(keys, a) + SelectedColumns(keys, b)
    decreases |a|
  {
    if a == [] {
      assert a + b == b;
    } else {
      assert (a + b)[0] == a[0];
      assert (a + b)[1..] == a[1..] + b;
      SelectedAppend(keys, a[1..], b);
    }
  }

  /** An ordinary key contributes its own column when present. */
  lemma SelectedSingle(keys: set<string>, key: string)
    requires key != "points" && key != "difficulty"
    ensures SelectedColumns(keys, [key]) == ColumnsFor(keys, key)
  {
    assert [key][1..] == [];
  }

  /** `update_problem`'s clause builder. The clauses are those of exactly the
      selected columns, in the fixed column order; the values are bound to them
      position by position (`ClausesAlignWithBindings`), followed by the problem
      id; a body with none of the six keys is refused. */
  method BuildUpdate(data: map<string, Json>, problemId: int) returns (r: Result<Update, string>)
    ensures r.Err? <==> SelectedColumns(data.Keys, Columns) == []
    ensures r.Err? ==> r.error == NoFieldsToUpdate
    ensures r.Ok? ==>
      var cols := SelectedColumns(data.Keys, Columns);
      r.value == Update(Clauses(cols), Bindings(data, cols) + [JInt(problemId)])
  {
    var fields: seq<string> := [];
    var values: seq<Json> := [];
    ghost var cols: seq<string> := [];
    ghost var f0, v0 := fields, values;
    if "number" in data {
      fields := fields + [Clause("number")];
      values := values + [data["number"]];
    }
    AlignedStep(data, cols, "number", f0, v0, fields, values);
    assert cols + ColumnsFor(data.Keys, "number") == ColumnsFor(data.Keys, "number");
    cols, f0, v0 := ColumnsFor(data.Keys, "number"), fields, values;
    if "name" in data {
      fields := fields + [Clause("name")];
      values := values + [data["name"]];
    }
    AlignedStep(data, cols, "name", f0, v0, fields, values);
    cols, f0, v0 := cols + ColumnsFor(data.Keys, "name"), fields, values;
    if "difficulty" in data {
      fields := fields + [Clause("difficulty")];
      values := values + [data["difficulty"]];
      // a new difficulty also sets the points it is worth
      var points := Points(data["difficulty"]);
      fields := fields + [Clause("points")];
      values := values + [JInt(points)];
    }
    AlignedStep(data, cols, "difficulty", f0, v0, fields, values);
    cols, f0, v0 := cols + ColumnsFor(data.Keys, "difficulty"), fields, values;
    if "topic" in data {
      fields := fields + [Clause("topic")];
      values := values + [data["topic"]];
    }
    AlignedStep(data, cols, "topic", f0, v0, fields, values);
    cols, f0, v0 := cols + ColumnsFor(data.Keys, "topic"), fields, values;
    if "summary" in data {
      fields := fields + [Clause("summary")];
      values := values + [data["summary"]];
    }
    AlignedStep(data, cols, "summary", f0, v0, fields, values);
    cols, f0, v0 := cols + ColumnsFor(data.Keys, "summary"), fields, values;
    if "notes" in data {
      fields := fields + [Clause("notes")];
      values := values + [data["notes"]];
    }
    AlignedStep(data, cols, "notes", f0, v0, fields, values);
    cols := cols + ColumnsFor(data.Keys, "notes");
    SixTestsSelectColumns(data.Keys);
    ClausesAlignWithBindings(data, cols);
    if fields == [] {
      return Err(NoFieldsToUpdate);
    }
    values := values + [JInt(problemId)];
    r := Ok(Update(fields, values));
  }

  /** The SET clauses of `cols`, one per column, in order. */
  function Clauses(cols: seq<string>): seq<string>
  {
    if cols == [] then [] else [Clause(cols[0])] + Clauses(cols[1..])
  }

  /** The parameters bound to `cols`, one per column, in order. */
  function Bindings(data: map<string, Json>, cols: seq<string>): seq<Json>
  {
    if cols == [] then [] else [ColumnValue(data, cols[0])] + Bindings(data, cols[1..])
  }

  /** Clauses and values align one to one: the i-th value is the one bound to
      the column the i-th clause sets. */
  lemma {:induction false} ClausesAlignWithBindings(data: map<string, Json>, cols: seq<string>)
    ensures |Clauses(cols)| == |cols| == |Bindings(data, cols)|
    ensures forall i :: 0 <= i < |cols| ==>
              Clauses(cols)[i] == Clause(cols[i]) && Bindings(data, cols)[i] == ColumnValue(data, cols[i])
  {
    if cols != [] {
      ClausesAlignWithBindings(data, cols[1..]);
    }
  }

  lemma {:induction false} ClausesAppend(data: map<string, Json>, a: seq<string>, b: seq<string>)
    ensures Clauses(a + b) == Clauses(a) + Clauses(b)
    ensures Bindings(data, a + b) == Bindings(data, a) + Bindings(data, b)
    decreases |a|
  {
    if a == [] {
      assert a + b == b;
    } else {
      assert (a + b)[0] == a[0];
      assert (a + b)[1..] == a[1..] + b;
      ClausesAppend(data, a[1..], b);
    }
  }

  lemma ClausesPair(data: map<string, Json>, x: string, y: string)
    ensures Clauses([x, y]) == [Clause(x), Clause(y)]
    ensures Bindings(data, [x, y]) == [ColumnValue(data, x), ColumnValue(data, y)]
  {
    assert [x, y][1..] == [y] && [y][1..] == [];
    assert Clauses([y]) == [Clause(y)] + Clauses([]);
    assert Bindings(data, [y]) == [ColumnValue(data, y)] + Bindings(data, []);
  }

  /** One test of `update_problem` keeps the clauses and values built so far
      equal to those of the columns chosen so far. */
  lemma AlignedStep(data: map<string, Json>, cols: seq<string>, key: string,
                    f0: seq<string>, v0: seq<Json>, f1: seq<string>, v1: seq<Json>)
    requires key != "points"
    requires f0 == Clauses(cols) && v0 == Bindings(data, cols)
    requires key !in data ==> f1 == f0 && v1 == v0
    requires key in data && key != "difficulty" ==>
      f1 == f0 + [Clause(key)] && v1 == v0 + [data[key]]
    requires key in data && key == "difficulty" ==>
      f1 == f0 + [Clause("difficulty"), Clause("points")]
      && v1 == v0 + [data["difficulty"], JInt(Points(data["difficulty"]))]
    ensures f1 == Clauses(cols + ColumnsFor(data.Keys, key))
    ensures v1 == Bindings(data, cols + ColumnsFor(data.Keys, key))
  {
    var more := ColumnsFor(data.Keys, key);
    ClausesAppend(data, cols, more);
    if key !in data {
      assert more == [];
    } else if key != "difficulty" {
      assert more[1..] == [];
    } else {
      ClausesPair(data, "difficulty", "points");
    }
  }

  /** Position of a column in `Columns` (7 for anything else). */
  function Rank(column: string): nat
  {
    if column == "number" then 0 else if column == "name" then 1
    else if column == "difficulty" then 2 else if column == "points" then 3
    else if column == "topic" then 4 else if column == "summary" then 5
    else if column == "notes" then 6 else 7
  }

  /** Filtering a rank-ordered list of columns keeps them rank-ordered, keeps
      only columns of the list, and keeps exactly the selected ones. */
  lemma {:induction false} SelectedColumnsOrdered(keys: set<string>, cs: seq<string>)
    requires forall i, j :: 0 <= i < j < |cs| ==> Rank(cs[i]) < Rank(cs[j])
    ensures forall c :: c in SelectedColumns(keys, cs) <==> c in cs && Selected(keys, c)
    ensures forall i, j :: 0 <= i < j < |SelectedColumns(keys, cs)| ==>
              Rank(SelectedColumns(keys, cs)[i]) < Rank(SelectedColumns(keys, cs)[j])
  {
    if cs != [] {
      SelectedColumnsOrdered(keys, cs[1..]);
      var rest := SelectedColumns(keys, cs[1..]);
      forall c | c in rest ensures Rank(cs[0]) < Rank(c) {
        var k :| 0 <= k < |cs[1..]| && cs[1..][k] == c;
        assert cs[k + 1] == c;
      }
    }
  }

  /** The clauses come out in the fixed order number, name, difficulty, points,
      topic, summary, notes, no column twice; a column is set exactly when its
      key is in the body, and the points exactly when the difficulty is. */
  lemma ClauseOrderAndPresence(keys: set<string>)
    ensures forall i, j :: 0 <= i < j < |SelectedColumns(keys, Columns)| ==>
              Rank(SelectedColumns(keys, Columns)[i]) < Rank(SelectedColumns(keys, Columns)[j])
    ensures forall c :: c in Columns ==> (c in SelectedColumns(keys, Columns) <==> Selected(keys, c))
    ensures "points" in SelectedColumns(keys, Columns) <==> "difficulty" in keys
  {
    SelectedColumnsOrdered(keys, Columns);
  }

  // ---------------------------------------------------------------------------
  // analytics_points_over_time and analytics_summary

  /** One row of the per-day query: the day (already formatted) and the sum
      of the points of the problems added that day. */
  datatype DailyTotal = DailyTotal(date: string, totalPoints: int)

  /** One entry of the response: the day and the points accumulated so far. */
  datatype CumulativeEntry = CumulativeEntry(date: string, points: int)

  /** Sum of the daily totals of `rows`. */
  function SumTotals(rows: seq<DailyTotal>): int
  {
    if rows == [] then 0 else SumTotals(rows[..|rows| - 1]) + rows[|rows| - 1].totalPoints
  }

  /** The running-total loop of `analytics_points_over_time`: one entry per
      row, each carrying its row's date and the sum of the totals up to and
      including that row; so each entry adds its day's total to the one before
      and the last entry is the sum of all. */
  method CumulativePoints(rows: seq<DailyTotal>) returns (out: seq<CumulativeEntry>)
    ensures |out| == |rows|
    ensures forall i :: 0 <= i < |rows| ==>
              out[i].date == rows[i].date && out[i].points == SumTotals(rows[..i + 1])
    ensures |rows| > 0 ==> out[0].points == rows[0].totalPoints
    ensures forall i :: 0 < i < |rows| ==> out[i].points == out[i - 1].points + rows[i].totalPoints
    ensures |rows| > 0 ==> out[|rows| - 1].points == SumTotals(rows)
  {
    var cumulative := 0;
    out := [];
    var k := 0;
    while k < |rows|
      invariant 0 <= k <= |rows|
      invariant |out| == k
      invariant cumulative == SumTotals(rows[..k])
      invariant forall i :: 0 <= i < k ==>
                  out[i].date == rows[i].date && out[i].points == SumTotals(rows[..i + 1])
    {
      assert rows[..k + 1][..k] == rows[..k];
      cumulative := cumulative + rows[k].totalPoints;
      out := out + [CumulativeEntry(rows[k].date, cumulative)];
      k := k + 1;
    }
    assert rows[..|rows|] == rows;
    if |rows| > 0 {
      assert rows[..1] == [rows[0]];
    }
    forall i | 0 < i < |rows| ensures out[i].points == out[i - 1].points + rows[i].totalPoints {
      assert rows[..i + 1][..i] == rows[..i];
    }
  }

  /** With no negative daily total, the running total never goes down. */
  lemma {:induction false} RunningTotalMonotone(rows: seq<DailyTotal>, i: nat, j: nat)
    requires forall k :: 0 <= k < |rows| ==> rows[k].totalPoints >= 0
    requires i <= j <= |rows|
    ensures SumTotals(rows[..i]) <= SumTotals(rows[..j])
    decreases j
  {
    if i < j {
      assert rows[..j][..j - 1] == rows[..j - 1];
      RunningTotalMonotone(rows, i, j - 1);
    }
  }

  /** `SUM(points)`: SQL gives NULL over no rows. */
  function SqlSum(points: seq<int>): Option<int>
  {
    if points == [] then None else Some(Sum(points))
  }

  function Sum(points: seq<int>): int
  {
    if points == [] then 0 else points[0] + Sum(points[1..])
  }

  /** `total_points if total_points else 0` of `analytics_summary`. */
  function SummaryTotalPoints(sum: Option<int>): (total: int)
    ensures sum.None? ==> total == 0
    ensures sum.Some? ==> total == sum.value
  {
    match sum
    case None => 0
    case Some(v) => if v != 0 then v else 0
  }

  /** The reported total is the plain sum of the user's points, 0 for a user
      with no problems. */
  lemma SummaryIsSum(points: seq<int>)
    ensures SummaryTotalPoints(SqlSum(points)) == Sum(points)
  {
  }

  /** When the per-day rows partition the user's problems, the summary total
      and the last running total agree. */
  lemma {:induction false} SummaryMatchesLastRunningTotal(rows: seq<DailyTotal>, perDay: seq<seq<int>>)
    requires |perDay| == |rows|
    requires forall k :: 0 <= k < |rows| ==> rows[k].totalPoints == Sum(perDay[k])
    ensures SumTotals(rows) == Sum(Flatten(perDay))
    decreases |rows|
  {
    if rows != [] {
      var n := |rows|;
      SummaryMatchesLastRunningTotal(rows[..n - 1], perDay[..n - 1]);
      FlattenLast(perDay);
      SumAppend(Flatten(perDay[..n - 1]), perDay[n - 1]);
    }
  }

  /** The points of all days, day after day. */
  function Flatten(perDay: seq<seq<int>>): seq<int>
  {
    if perDay == [] then [] else perDay[0] + Flatten(perDay[1..])
  }

  lemma {:induction false} FlattenLast(perDay: seq<seq<int>>)
    requires perDay != []
    ensures Flatten(perDay) == Flatten(perDay[..|perDay| - 1]) + perDay[|perDay| - 1]
    decreases |perDay|
  {
    if |perDay| > 1 {
      FlattenLast(perDay[1..]);
      assert perDay[1..][..|perDay| - 2] == perDay[..|perDay| - 1][1..];
    } else {
      assert perDay[..0] == [];
    }
  }

  lemma {:induction false} SumAppend(a: seq<int>, b: seq<int>)
    ensures Sum(a + b) == Sum(a) + Sum(b)
    decreases |a|
  {
    if a == [] {
      assert a + b == b;
    } else {
      assert (a + b)[1..] == a[1..] + b;
      SumAppend(a[1..], b);
    }
  }
}
