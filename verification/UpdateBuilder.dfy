/** The UPDATE statement `Ctx.Update` builds (ctx.go, pkg/schema/auto.go). */
module UpdateBuilder {
  import opened Text

  /** One SET part: the column and the number of its placeholder, `$1` being the id. */
  datatype Assign = Assign(column: string, placeholder: nat)

  predicate InRange<V>(sets: seq<Assign>, args: seq<V>) {
    forall i :: 0 <= i < |sets| ==> 1 <= sets[i].placeholder <= |args|
  }

  /** What the database does to a row: each part stores the argument its placeholder names. */
  ghost function Evaluate<V>(sets: seq<Assign>, args: seq<V>, row: map<string, V>): map<string, V>
    requires InRange(sets, args)
    decreases |sets|
  {
    if sets == [] then row
    else
      var last := sets[|sets| - 1];
      Evaluate(sets[..|sets| - 1], args, row)[last.column := args[last.placeholder - 1]]
  }

  /** No column is assigned twice, which the database would refuse. */
  ghost predicate Distinct(sets: seq<Assign>) {
    forall i, j :: 0 <= i < j < |sets| ==> sets[i].column != sets[j].column
  }

  ghost predicate NoRepeats(cols: seq<string>) {
    forall i, j :: 0 <= i < j < |cols| ==> cols[i] != cols[j]
  }

  /** Arguments appended later do not change what earlier parts store. */
  lemma {:induction false} EvaluateIgnoresLaterArgs<V>(
    sets: seq<Assign>, args: seq<V>, more: seq<V>, row: map<string, V>)
    requires InRange(sets, args)
    ensures InRange(sets, args + more) && Evaluate(sets, args + more, row) == Evaluate(sets, args, row)
    decreases |sets|
  {
    if sets != [] {
      EvaluateIgnoresLaterArgs(sets[..|sets| - 1], args, more, row);
    }
  }

  lemma EvaluateSnoc<V>(sets: seq<Assign>, args: seq<V>, column: string, value: V, row: map<string, V>)
    requires InRange(sets, args)
    ensures var next := sets + [Assign(column, |args| + 1)];
            InRange(next, args + [value])
                && Evaluate(next, args + [value], row) == Evaluate(sets, args, row)[column := value]
  {
    var next := sets + [Assign(column, |args| + 1)];
    assert next[..|sets|] == sets;
    EvaluateIgnoresLaterArgs(sets, args, [value], row);
  }

  /** The parts built so far store exactly `done`, and every placeholder is the next free one. */
  ghost predicate Builds<V(!new)>(sets: seq<Assign>, args: seq<V>, id: V, done: map<string, V>) {
    && |args| == |sets| + 1 && args[0] == id
    && (forall i :: 0 <= i < |sets| ==> sets[i].placeholder == i + 2)
    && InRange(sets, args)
    && Distinct(sets)
    && (forall i :: 0 <= i < |sets| ==> sets[i].column in done)
    && forall row :: Evaluate(sets, args, row) == row + done
  }

  lemma BuildsSnoc<V(!new)>(sets: seq<Assign>, args: seq<V>, id: V, done: map<string, V>, column: string, value: V)
    requires Builds(sets, args, id, done) && column !in done
    ensures Builds(sets + [Assign(column, |args| + 1)], args + [value], id, done[column := value])
  {
    var next := sets + [Assign(column, |args| + 1)];
    forall row ensures InRange(next, args + [value])
        && Evaluate(next, args + [value], row) == row + done[column := value] {
      EvaluateSnoc(sets, args, column, value, row);
      assert (row + done)[column := value] == row + done[column := value];
    }
  }

  /** `AutoRefreshColumns`: the refreshed columns, each once, in order. */
  method AutoRefreshColumns(refreshes: map<string, bool>) returns (cols: seq<string>)
    ensures StrictlySorted(cols) && NoRepeats(cols)
    ensures forall c :: c in cols <==> c in refreshes && refreshes[c]
  {
    var picked: map<string, bool> := map c | c in refreshes && refreshes[c] :: true;
    cols := SortedKeys(picked);
    StrictlySortedNoDuplicates(cols);
  }

  /** The refresh columns the caller did not set, stamped. */
  function Stamped<V>(refresh: seq<string>, data: map<string, V>, now: V): map<string, V> {
    map c | c in refresh && c !in data :: now
  }

  /**
   * The SET list: applied to any row it stores the data and stamps exactly the refresh columns the
   * data leaves out, each column once, each placeholder on its own argument.
   */
  method BuildSet<V(!new)>(id: V, data: map<string, V>, refresh: seq<string>, now: V)
    returns (sets: seq<Assign>, args: seq<V>)
    requires NoRepeats(refresh)
    ensures |args| == |sets| + 1 && args[0] == id && InRange(sets, args)
    ensures forall i :: 0 <= i < |sets| ==> sets[i].placeholder == i + 2
    ensures Distinct(sets)
    ensures forall row :: Evaluate(sets, args, row) == row + (data + Stamped(refresh, data, now))
  {
    sets, args := SetData(id, data);
    sets, args := StampColumns(sets, args, id, data, refresh, now);
  }

  /** The loop over the caller's data, in key order. */
  method SetData<V(!new)>(id: V, data: map<string, V>) returns (sets: seq<Assign>, args: seq<V>)
    ensures Builds(sets, args, id, data)
  {
    var keys := SortedKeys(data);
    StrictlySortedNoDuplicates(keys);
    args, sets := [id], [];
    ghost var done: map<string, V> := map[];
    for i := 0 to |keys|
      invariant Builds(sets, args, id, done)
      invariant forall k :: k in done <==> k in keys[..i]
      invariant forall k :: k in done ==> k in data && done[k] == data[k]
    {
      BuildsSnoc(sets, args, id, done, keys[i], data[keys[i]]);
      done := done[keys[i] := data[keys[i]]];
      args := args + [data[keys[i]]];
      sets := sets + [Assign(keys[i], |args|)];
    }
    assert done == data;
  }

  /** The loop over the refresh columns, which skips what the data already sets. */
  method StampColumns<V(!new)>(sets0: seq<Assign>, args0: seq<V>, id: V, data: map<string, V>, refresh: seq<string>,
      now: V)
    returns (sets: seq<Assign>, args: seq<V>)
    requires Builds(sets0, args0, id, data) && NoRepeats(refresh)
    ensures Builds(sets, args, id, data + Stamped(refresh, data, now))
  {
    sets, args := sets0, args0;
    ghost var done := data;
    for i := 0 to |refresh|
      invariant Builds(sets, args, id, done)
      invariant forall k :: k in done <==> k in data || k in refresh[..i]
      invariant forall k :: k in done ==> done[k] == if k in data then data[k] else now
    {
      if refresh[i] !in data {
        BuildsSnoc(sets, args, id, done, refresh[i], now);
        done := done[refresh[i] := now];
        args := args + [now];
        sets := sets + [Assign(refresh[i], |args|)];
      }
    }
    assert done == data + Stamped(refresh, data, now);
  }

  /**
   * The statement for a resource: whatever the row held, it then holds the data, `now` in every
   * refreshed column the data does not name, and its old value everywhere else.
   */
  method UpdateStatement<V(!new)>(id: V, data: map<string, V>, refreshes: map<string, bool>, now: V)
    returns (sets: seq<Assign>, args: seq<V>)
    ensures InRange(sets, args) && Distinct(sets) && |args| == |sets| + 1 && args[0] == id
    ensures forall row, c :: c in Evaluate(sets, args, row) <==>
              c in row || c in data || (c in refreshes && refreshes[c])
    ensures forall row, c :: c in Evaluate(sets, args, row) ==>
              Evaluate(sets, args, row)[c] ==
                if c in data then data[c] else if c in refreshes && refreshes[c] then now else row[c]
  {
    var cols := AutoRefreshColumns(refreshes);
    sets, args := BuildSet(id, data, cols, now);
  }
}
