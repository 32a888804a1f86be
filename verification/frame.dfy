/** The input table and the fail-fast validation ladder every test opens with
    (risktests/Binomial_test.py:41-72 and its copies in the other tests). */
module Frame {
  import opened Outcomes

  /** One cell of a numeric column; `Missing` is a NaN. */
  datatype Cell = Num(v: real) | Missing

  /** A data frame: column names and rows of cells. */
  datatype Table = Table(header: seq<string>, rows: seq<seq<Cell>>)

  /** Every row has one cell per column. */
  predicate Rectangular(t: Table)
  {
    forall r :: 0 <= r < |t.rows| ==> |t.rows[r]| == |t.header|
  }

  /** `df.empty`: no rows or no columns. */
  predicate IsEmpty(t: Table)
  {
    |t.rows| == 0 || |t.header| == 0
  }

  /** A column-name argument as the caller passed it: None, a str, or any other object. */
  datatype Arg = NoneArg | Str(name: string) | NonStr

  /** Position of the first column called `name`, or |header| when there is none. */
  function ColumnIndex(header: seq<string>, name: string): (c: nat)
    ensures c <= |header|
    ensures c < |header| <==> name in header
    ensures c < |header| ==> header[c] == name
  {
    if |header| == 0 then 0
    else if header[0] == name then 0
    else 1 + ColumnIndex(header[1..], name)
  }

  /** `df[col].hasnans` for the column at position `c`. */
  predicate HasMissing(t: Table, c: nat)
    requires Rectangular(t) && c < |t.header|
  {
    exists r :: 0 <= r < |t.rows| && t.rows[r][c].Missing?
  }

  /** More than one column carries `name`: `df[name]` is then a DataFrame,
      which has no `hasnans`. */
  predicate Repeated(header: seq<string>, name: string)
  {
    multiset(header)[name] >= 2
  }

  /** A name carried by exactly one column is found at that column and no other. */
  lemma {:induction false} UniqueColumn(header: seq<string>, name: string, c: nat)
    requires multiset(header)[name] == 1
    requires c < |header| && header[c] == name
    ensures c == ColumnIndex(header, name)
  {
    assert header == [header[0]] + header[1..];
    if header[0] != name {
      assert multiset(header[1..])[name] == 1;
      UniqueColumn(header[1..], name, c - 1);
    }
  }

  /** Every argument is a string naming a column of `t`. */
  predicate AllNamed(t: Table, args: seq<Arg>)
  {
    forall i :: 0 <= i < |args| ==> args[i].Str? && args[i].name in t.header
  }

  /** `df[col].hasnans` raises or holds for the `k`-th scanned argument: its
      name is repeated, or the column it names has a NaN. */
  predicate ScanHits(t: Table, args: seq<Arg>, scan: seq<nat>, k: nat)
    requires Rectangular(t) && AllNamed(t, args)
    requires forall j :: 0 <= j < |scan| ==> scan[j] < |args|
    requires k < |scan|
  {
    Repeated(t.header, args[scan[k]].name) || HasMissing(t, ColumnIndex(t.header, args[scan[k]].name))
  }

  /** The failure of the `k`-th scan step that hits. */
  function ScanFailure(t: Table, name: string): (f: Failure)
    ensures f.RepeatedColumn? || f.MissingValue?
    ensures f.name == name
    ensures f.RepeatedColumn? <==> Repeated(t.header, name)
  {
    if Repeated(t.header, name) then RepeatedColumn(name) else MissingValue(name)
  }

  function FirstNone(args: seq<Arg>, i: nat): (r: nat)
    requires i <= |args|
    ensures i <= r <= |args|
    ensures forall k :: i <= k < r ==> !args[k].NoneArg?
    ensures r < |args| ==> args[r].NoneArg?
    decreases |args| - i
  {
    if i == |args| || args[i].NoneArg? then i else FirstNone(args, i + 1)
  }

  function FirstNonStr(args: seq<Arg>, i: nat): (r: nat)
    requires i <= |args|
    ensures i <= r <= |args|
    ensures forall k :: i <= k < r ==> args[k].Str?
    ensures r < |args| ==> !args[r].Str?
    decreases |args| - i
  {
    if i == |args| || !args[i].Str? then i else FirstNonStr(args, i + 1)
  }

  function FirstUnknown(t: Table, args: seq<Arg>, i: nat): (r: nat)
    requires i <= |args|
    requires forall k :: 0 <= k < |args| ==> args[k].Str?
    ensures i <= r <= |args|
    ensures forall k :: i <= k < r ==> args[k].name in t.header
    ensures r < |args| ==> args[r].name !in t.header
    decreases |args| - i
  {
    if i == |args| || args[i].name !in t.header then i else FirstUnknown(t, args, i + 1)
  }

  function FirstScanHit(t: Table, args: seq<Arg>, scan: seq<nat>, k: nat): (r: nat)
    requires Rectangular(t) && AllNamed(t, args)
    requires forall j :: 0 <= j < |scan| ==> scan[j] < |args|
    requires k <= |scan|
    ensures k <= r <= |scan|
    ensures forall j :: k <= j < r ==> !ScanHits(t, args, scan, j)
    ensures r < |scan| ==> ScanHits(t, args, scan, r)
    decreases |scan| - k
  {
    if k == |scan| || ScanHits(t, args, scan, k) then k else FirstScanHit(t, args, scan, k + 1)
  }

  /** The shared input ladder: empty table, then None arguments, then non-string
      arguments, then unknown column names (each in argument order), then NaNs in
      the order `scan` lists the arguments. The first failing check wins. On
      success, the position of each argument's column. */
  function Validate(t: Table, args: seq<Arg>, scan: seq<nat>): (r: Result<seq<nat>>)
    requires Rectangular(t)
    requires forall j :: 0 <= j < |scan| ==> scan[j] < |args|
    ensures r == Err(EmptyInput) <==> IsEmpty(t)
    ensures r.Err? ==> r.failure.EmptyInput? || r.failure.MissingArgument?
                       || r.failure.InvalidArgumentType? || r.failure.UnknownColumn?
                       || r.failure.MissingValue? || r.failure.RepeatedColumn?
    ensures r.Err? && r.failure.MissingArgument? ==>
              var i := r.failure.position;
              && !IsEmpty(t) && i < |args| && args[i].NoneArg?
              && (forall k :: 0 <= k < i ==> !args[k].NoneArg?)
    ensures r.Err? && r.failure.InvalidArgumentType? ==>
              var i := r.failure.position;
              && !IsEmpty(t) && i < |args| && args[i].NonStr?
              && (forall k :: 0 <= k < |args| ==> !args[k].NoneArg?)
              && (forall k :: 0 <= k < i ==> args[k].Str?)
    ensures r.Err? && r.failure.UnknownColumn? ==>
              && !IsEmpty(t) && (forall k :: 0 <= k < |args| ==> args[k].Str?)
              && r.failure.name !in t.header
              && exists i :: 0 <= i < |args| && args[i].name == r.failure.name
                             && forall k :: 0 <= k < i ==> args[k].name in t.header
    ensures r.Err? && (r.failure.MissingValue? || r.failure.RepeatedColumn?) ==>
              && !IsEmpty(t) && AllNamed(t, args)
              && exists k :: 0 <= k < |scan| && args[scan[k]].name == r.failure.name
                             && ScanHits(t, args, scan, k)
                             && forall j :: 0 <= j < k ==> !ScanHits(t, args, scan, j)
    ensures r.Err? && r.failure.RepeatedColumn? ==> Repeated(t.header, r.failure.name)
    ensures r.Err? && r.failure.MissingValue? ==>
              && r.failure.name in t.header && !Repeated(t.header, r.failure.name)
              && HasMissing(t, ColumnIndex(t.header, r.failure.name))
    ensures r.Ok? <==> && !IsEmpty(t) && AllNamed(t, args)
                       && forall k :: 0 <= k < |scan| ==> !ScanHits(t, args, scan, k)
    ensures r.Ok? ==> && |r.value| == |args|
                      && forall i :: 0 <= i < |args| ==>
                           r.value[i] < |t.header| && t.header[r.value[i]] == args[i].name
                           && r.value[i] == ColumnIndex(t.header, args[i].name)
  {
    if IsEmpty(t) then Err(EmptyInput)
    else
      var n := FirstNone(args, 0);
      if n < |args| then Err(MissingArgument(n))
      else
        var s := FirstNonStr(args, 0);
        if s < |args| then Err(InvalidArgumentType(s))
        else
          var u := FirstUnknown(t, args, 0);
          if u < |args| then Err(UnknownColumn(args[u].name))
          else
            Scan(t, args, scan)
  }

  /** The last rung: `df[col].hasnans` for each scanned argument in turn, the
      first repeated name or NaN stopping it; on success, the position of each
      argument's column. */
  function Scan(t: Table, args: seq<Arg>, scan: seq<nat>): (r: Result<seq<nat>>)
    requires Rectangular(t) && AllNamed(t, args)
    requires forall j :: 0 <= j < |scan| ==> scan[j] < |args|
    ensures r.Err? ==> r.failure.MissingValue? || r.failure.RepeatedColumn?
    ensures r.Err? ==>
              exists k :: 0 <= k < |scan| && args[scan[k]].name == r.failure.name
                          && ScanHits(t, args, scan, k)
                          && forall j :: 0 <= j < k ==> !ScanHits(t, args, scan, j)
    ensures r.Err? && r.failure.RepeatedColumn? ==> Repeated(t.header, r.failure.name)
    ensures r.Err? && r.failure.MissingValue? ==>
              && r.failure.name in t.header && !Repeated(t.header, r.failure.name)
              && HasMissing(t, ColumnIndex(t.header, r.failure.name))
    ensures r.Ok? <==> forall k :: 0 <= k < |scan| ==> !ScanHits(t, args, scan, k)
    ensures r.Ok? ==> && |r.value| == |args|
                      && forall i :: 0 <= i < |args| ==>
                           r.value[i] < |t.header| && t.header[r.value[i]] == args[i].name
                           && r.value[i] == ColumnIndex(t.header, args[i].name)
  {
    var h := FirstScanHit(t, args, scan, 0);
    if h < |scan| then Err(ScanFailure(t, args[scan[h]].name))
    else Ok(seq(|args|, i requires 0 <= i < |args| => ColumnIndex(t.header, args[i].name)))
  }

  /** The values of the column at position `c`, which holds no NaN. */
  function Values(t: Table, c: nat): (vs: seq<real>)
    requires Rectangular(t) && c < |t.header| && !HasMissing(t, c)
    ensures |vs| == |t.rows|
    ensures forall r :: 0 <= r < |t.rows| ==> t.rows[r][c] == Num(vs[r])
  {
    seq(|t.rows|, r requires 0 <= r < |t.rows| => t.rows[r][c].v)
  }

  /** After a successful ladder, none of the checked columns has a NaN. */
  lemma ValidatedColumnsComplete(t: Table, args: seq<Arg>, scan: seq<nat>, i: nat)
    requires Rectangular(t)
    requires forall j :: 0 <= j < |scan| ==> scan[j] < |args|
    requires Validate(t, args, scan).Ok?
    requires i in scan
    ensures multiset(t.header)[args[i].name] == 1
    ensures !HasMissing(t, Validate(t, args, scan).value[i])
  {
    var k :| 0 <= k < |scan| && scan[k] == i;
    assert !ScanHits(t, args, scan, k);
    assert t.header[ColumnIndex(t.header, args[i].name)] in multiset(t.header);
  }
}
