/**
 * A numeric table as read from CSV: named columns and one row of cells
 * per record, with column selection by name.
 */
module Frames {
  import opened Wrappers
  import opened Seqs
  import opened Schema

  datatype Frame = Frame(columns: seq<string>, rows: seq<seq<Value>>)

  /** Every row has one cell per column. */
  predicate WellFormed(f: Frame) {
    forall i | 0 <= i < |f.rows| :: |f.rows[i]| == |f.columns|
  }

  /** Position of the first column named `name`. */
  function IndexOf(columns: seq<string>, name: string): (r: Option<nat>)
    ensures r.None? <==> name !in columns
    ensures r.Some? ==> r.value < |columns| && columns[r.value] == name
    ensures r.Some? ==> forall k | 0 <= k < r.value :: columns[k] != name
  {
    if |columns| == 0 then None
    else if columns[0] == name then Some(0)
    else
      match IndexOf(columns[1..], name)
      case None => None
      case Some(k) => Some(k + 1)
  }

  /** Whether a name is not among the columns. */
  function AbsentFrom(columns: seq<string>): string -> bool {
    c => c !in columns
  }

  /** `[c for c in wanted if c not in columns]`: the absent names, in
      wanted order. */
  function MissingColumns(wanted: seq<string>, columns: seq<string>): (missing: seq<string>)
    ensures missing == Select(wanted, Indices(wanted, AbsentFrom(columns)))
    ensures forall k | 0 <= k < |missing| :: missing[k] in wanted && missing[k] !in columns
    ensures forall i | 0 <= i < |wanted| && wanted[i] !in columns :: wanted[i] in missing
    ensures |missing| == 0 <==> forall i | 0 <= i < |wanted| :: wanted[i] in columns
  {
    var missing := Filter(wanted, AbsentFrom(columns));
    assert |missing| > 0 ==> missing[0] in wanted;
    missing
  }

  /** The cells of column `name`, top to bottom. */
  function Column(f: Frame, name: string): (r: Option<seq<Value>>)
    requires WellFormed(f)
    ensures r.None? <==> name !in f.columns
    ensures r.Some? ==> |r.value| == |f.rows|
    ensures r.Some? ==> forall i | 0 <= i < |f.rows| :: r.value[i] == f.rows[i][IndexOf(f.columns, name).value]
  {
    match IndexOf(f.columns, name)
    case None => None
    case Some(c) => Some(seq(|f.rows|, i requires 0 <= i < |f.rows| => f.rows[i][c]))
  }

  /** `df[names]` as a numeric matrix; a `KeyError`-like failure that lists
      the absent names when some are not columns. */
  function Project(f: Frame, names: seq<string>): (r: Result<Matrix, Failure>)
    requires WellFormed(f)
    ensures r.Failure? <==> exists i | 0 <= i < |names| :: names[i] !in f.columns
    ensures r.Failure? ==> r.error == MissingFeatures(MissingColumns(names, f.columns))
    ensures r.Success? ==> |r.value| == |f.rows|
    ensures r.Success? ==> forall i | 0 <= i < |f.rows| :: |r.value[i]| == |names|
    ensures r.Success? ==> forall i, k | 0 <= i < |f.rows| && 0 <= k < |names| ::
      r.value[i][k] == f.rows[i][IndexOf(f.columns, names[k]).value]
  {
    var missing := MissingColumns(names, f.columns);
    if |missing| > 0 then Failure(MissingFeatures(missing))
    else
      var at := seq(|names|, k requires 0 <= k < |names| => IndexOf(f.columns, names[k]).value);
      Success(seq(|f.rows|, i requires 0 <= i < |f.rows| =>
        seq(|names|, k requires 0 <= k < |names| => f.rows[i][at[k]])))
  }

  /** When the wanted names are the leading columns, each in its own
      place, projecting keeps the leading cells of every row. */
  lemma ProjectLeadingColumns(f: Frame, names: seq<string>)
    requires WellFormed(f)
    requires forall k | 0 <= k < |names| :: IndexOf(f.columns, names[k]) == Some(k)
    ensures Project(f, names).Success?
    ensures forall i | 0 <= i < |f.rows| ::
      |names| <= |f.rows[i]| && Project(f, names).value[i] == f.rows[i][..|names|]
  {
    if |names| > 0 {
      assert IndexOf(f.columns, names[|names| - 1]).value < |f.columns|;
    }
    assert forall k | 0 <= k < |names| :: names[k] in f.columns;
    var p := Project(f, names);
    forall i | 0 <= i < |f.rows| ensures p.value[i] == f.rows[i][..|names|] {
      assert forall k | 0 <= k < |names| :: p.value[i][k] == f.rows[i][k];
    }
  }

  /** Two frames with the same columns whose rows agree on the named
      columns project to the same matrix: the other columns play no part. */
  lemma ProjectReadsOnlyNamedColumns(f: Frame, g: Frame, names: seq<string>)
    requires WellFormed(f) && WellFormed(g) && f.columns == g.columns && |f.rows| == |g.rows|
    requires forall i, k | 0 <= i < |f.rows| && 0 <= k < |names| && names[k] in f.columns ::
      f.rows[i][IndexOf(f.columns, names[k]).value] == g.rows[i][IndexOf(g.columns, names[k]).value]
    ensures Project(f, names) == Project(g, names)
  {
    var pf, pg := Project(f, names), Project(g, names);
    if pf.Success? {
      assert pg.Success?;
      forall i | 0 <= i < |f.rows| ensures pf.value[i] == pg.value[i] {
        assert |pf.value[i]| == |pg.value[i]| == |names|;
        assert forall k | 0 <= k < |names| :: pf.value[i][k] == pg.value[i][k];
      }
      assert pf.value == pg.value;
    }
  }
}
