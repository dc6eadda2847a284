/**
 * `Base.to_dict` of app/models/base.py: the column attributes of a mapped
 * row, optionally restricted by `include` and `exclude` lists.
 */
module OrmBase {
  import opened Wrappers

  /**
   * A mapped column attribute of a row: its key, the identity of its
   * `ColumnProperty` object (what `in` compares list elements with), and
   * the row's value for it.
   */
  datatype Column<V> = Column(key: string, prop: nat, value: V)

  /** An element of an `include` or `exclude` list. */
  datatype Item = PropertyItem(prop: nat) | OtherItem(text: string)

  /** The value passed as `include` or `exclude`. */
  datatype Filter = NoFilter | ListFilter(items: seq<Item>) | NonList(truthy: bool)

  /** `bool(value)` */
  predicate Truthy(f: Filter)
  {
    match f
    case NoFilter => false
    case ListFilter(items) => |items| > 0
    case NonList(t) => t
  }

  /** `column in items`: equality with a column property is identity, so no other element matches. */
  predicate Listed<V>(c: Column<V>, items: seq<Item>)
  {
    PropertyItem(c.prop) in items
  }

  /** The mapper's column keys are distinct. */
  predicate DistinctKeys<V>(cols: seq<Column<V>>)
  {
    forall i, j :: 0 <= i < j < |cols| ==> cols[i].key != cols[j].key
  }

  /** Whether `to_dict` keeps a column, given filters that passed the type checks. */
  predicate Kept<V>(c: Column<V>, includeArg: Filter, excludeArg: Filter)
  {
    && (Truthy(includeArg) ==> includeArg.ListFilter? && Listed(c, includeArg.items))
    && (Truthy(excludeArg) ==> excludeArg.ListFilter? && !Listed(c, excludeArg.items))
  }

  /** The dictionary entries, in mapper order, of the columns `keep` accepts. */
  function Entries<V>(cols: seq<Column<V>>, includeArg: Filter, excludeArg: Filter): (r: seq<(string, V)>)
    ensures |r| <= |cols|
  {
    if cols == [] then []
    else
      var rest := Entries(cols[1..], includeArg, excludeArg);
      if Kept(cols[0], includeArg, excludeArg) then [(cols[0].key, cols[0].value)] + rest else rest
  }

  function ToDict<V>(cols: seq<Column<V>>, includeArg: Filter, excludeArg: Filter): (r: Result<seq<(string, V)>, string>)
    ensures r.Err? <==> (Truthy(includeArg) && !includeArg.ListFilter?) || (Truthy(excludeArg) && !excludeArg.ListFilter?)
    ensures r.Err? && Truthy(includeArg) && !includeArg.ListFilter? ==>
              r.error == "The 'include' argument must be a valid list or None"
    ensures r.Err? && !(Truthy(includeArg) && !includeArg.ListFilter?) ==>
              r.error == "The 'exclude' argument must be a valid list or None"
    ensures r.Ok? ==> |r.value| <= |cols|
  {
    if Truthy(includeArg) && !includeArg.ListFilter? then Err("The 'include' argument must be a valid list or None")
    else if Truthy(excludeArg) && !excludeArg.ListFilter? then Err("The 'exclude' argument must be a valid list or None")
    else Ok(Entries(cols, includeArg, excludeArg))
  }

  lemma {:induction false} EntriesMembership<V>(cols: seq<Column<V>>, includeArg: Filter, excludeArg: Filter)
    requires DistinctKeys(cols)
    ensures forall i :: 0 <= i < |cols| ==>
              ((cols[i].key, cols[i].value) in Entries(cols, includeArg, excludeArg) <==> Kept(cols[i], includeArg, excludeArg))
    ensures forall e :: e in Entries(cols, includeArg, excludeArg) ==>
              exists i :: 0 <= i < |cols| && e == (cols[i].key, cols[i].value) && Kept(cols[i], includeArg, excludeArg)
    decreases |cols|
  {
    if cols != [] {
      var tail := cols[1..];
      assert DistinctKeys(tail) by {
        assert forall i :: 0 <= i < |tail| ==> tail[i] == cols[i + 1];
      }
      EntriesMembership(tail, includeArg, excludeArg);
      forall e | e in Entries(cols, includeArg, excludeArg)
        ensures exists i :: 0 <= i < |cols| && e == (cols[i].key, cols[i].value) && Kept(cols[i], includeArg, excludeArg)
      {
        if e != (cols[0].key, cols[0].value) || !Kept(cols[0], includeArg, excludeArg) {
          var i :| 0 <= i < |tail| && e == (tail[i].key, tail[i].value) && Kept(tail[i], includeArg, excludeArg);
          assert cols[i + 1] == tail[i];
        }
      }
      forall i | 1 <= i < |cols|
        ensures (cols[i].key, cols[i].value) in Entries(cols, includeArg, excludeArg) <==> Kept(cols[i], includeArg, excludeArg)
      {
        assert cols[i] == tail[i - 1];
        assert cols[i].key != cols[0].key;
      }
    }
  }

  /**
   * An accepted call returns exactly the columns that are in a non-empty
   * `include` list (when there is one) and not in a non-empty `exclude`
   * list (when there is one); every entry is one column's key and value.
   */
  lemma ToDictSelects<V>(cols: seq<Column<V>>, includeArg: Filter, excludeArg: Filter)
    requires DistinctKeys(cols)
    requires ToDict(cols, includeArg, excludeArg).Ok?
    ensures forall i :: 0 <= i < |cols| ==>
              ((cols[i].key, cols[i].value) in ToDict(cols, includeArg, excludeArg).value <==>
               (Truthy(includeArg) ==> Listed(cols[i], includeArg.items)) && (Truthy(excludeArg) ==> !Listed(cols[i], excludeArg.items)))
    ensures forall e :: e in ToDict(cols, includeArg, excludeArg).value ==>
              exists i :: 0 <= i < |cols| && e == (cols[i].key, cols[i].value)
  {
    EntriesMembership(cols, includeArg, excludeArg);
  }

  /** The positions, from `lo` on and in increasing order, of the columns `to_dict` keeps. */
  function KeptFrom<V>(cols: seq<Column<V>>, includeArg: Filter, excludeArg: Filter, lo: nat): (pos: seq<nat>)
    requires lo <= |cols|
    ensures forall k :: 0 <= k < |pos| ==> lo <= pos[k] < |cols|
    ensures forall k, m :: 0 <= k < m < |pos| ==> pos[k] < pos[m]
    decreases |cols| - lo
  {
    if lo == |cols| then []
    else (if Kept(cols[lo], includeArg, excludeArg) then [lo] else []) + KeptFrom(cols, includeArg, excludeArg, lo + 1)
  }

  /** A position from `lo` on is kept exactly when the filters keep its column. */
  lemma {:induction false} KeptPositionsComplete<V>(cols: seq<Column<V>>, includeArg: Filter, excludeArg: Filter, lo: nat)
    requires lo <= |cols|
    ensures forall i :: lo <= i < |cols| ==>
              (i in KeptFrom(cols, includeArg, excludeArg, lo) <==> Kept(cols[i], includeArg, excludeArg))
    decreases |cols| - lo
  {
    if lo < |cols| {
      KeptPositionsComplete(cols, includeArg, excludeArg, lo + 1);
      var rest := KeptFrom(cols, includeArg, excludeArg, lo + 1);
      assert lo !in rest;
      var head: seq<nat> := if Kept(cols[lo], includeArg, excludeArg) then [lo] else [];
      assert KeptFrom(cols, includeArg, excludeArg, lo) == head + rest;
      forall i | lo <= i < |cols|
        ensures i in head + rest <==> Kept(cols[i], includeArg, excludeArg)
      {
        assert i in head + rest <==> i in head || i in rest;
      }
    }
  }

  /** The entries of `cols[lo..]` are, one for one, the columns at the kept positions from `lo` on. */
  lemma {:induction false} EntriesInOrder<V>(cols: seq<Column<V>>, includeArg: Filter, excludeArg: Filter, lo: nat)
    requires lo <= |cols|
    ensures var pos := KeptFrom(cols, includeArg, excludeArg, lo);
            var e := Entries(cols[lo..], includeArg, excludeArg);
            && |e| == |pos|
            && (forall k :: 0 <= k < |pos| ==> e[k] == (cols[pos[k]].key, cols[pos[k]].value))
    decreases |cols| - lo
  {
    if lo < |cols| {
      EntriesInOrder(cols, includeArg, excludeArg, lo + 1);
      var pos := KeptFrom(cols, includeArg, excludeArg, lo);
      var rest := KeptFrom(cols, includeArg, excludeArg, lo + 1);
      var e := Entries(cols[lo..], includeArg, excludeArg);
      var tail := Entries(cols[lo + 1..], includeArg, excludeArg);
      assert cols[lo..][1..] == cols[lo + 1..];
      assert cols[lo..][0] == cols[lo];
      if Kept(cols[lo], includeArg, excludeArg) {
        assert pos == [lo] + rest;
        assert e == [(cols[lo].key, cols[lo].value)] + tail;
        forall k | 1 <= k < |pos|
          ensures e[k] == (cols[pos[k]].key, cols[pos[k]].value)
        {
          assert pos[k] == rest[k - 1] && e[k] == tail[k - 1];
        }
      } else {
        assert pos == rest && e == tail;
      }
    }
  }

  /**
   * An accepted call lists the kept columns in the mapper's order: its
   * entries are those of `AllEntries(cols)` at strictly increasing
   * positions, and a position occurs exactly when its column is kept.
   */
  lemma ToDictKeepsOrder<V>(cols: seq<Column<V>>, includeArg: Filter, excludeArg: Filter)
    requires ToDict(cols, includeArg, excludeArg).Ok?
    ensures var pos := KeptFrom(cols, includeArg, excludeArg, 0);
            var r := ToDict(cols, includeArg, excludeArg).value;
            && |r| == |pos|
            && (forall k :: 0 <= k < |pos| ==> pos[k] < |cols| && r[k] == AllEntries(cols)[pos[k]])
            && (forall k, m :: 0 <= k < m < |pos| ==> pos[k] < pos[m])
            && (forall i :: 0 <= i < |cols| ==>
                  (i in pos <==> (Truthy(includeArg) ==> Listed(cols[i], includeArg.items))
                                 && (Truthy(excludeArg) ==> !Listed(cols[i], excludeArg.items))))
  {
    EntriesInOrder(cols, includeArg, excludeArg, 0);
    KeptPositionsComplete(cols, includeArg, excludeArg, 0);
    assert cols[0..] == cols;
  }

  /** Every column's key and value, in mapper order. */
  function AllEntries<V>(cols: seq<Column<V>>): (r: seq<(string, V)>)
    ensures |r| == |cols| && forall i :: 0 <= i < |cols| ==> r[i] == (cols[i].key, cols[i].value)
  {
    seq(|cols|, i requires 0 <= i < |cols| => (cols[i].key, cols[i].value))
  }

  /** With no filter, or empty lists, every column is returned in mapper order. */
  lemma {:induction false} UnfilteredKeepsAll<V>(cols: seq<Column<V>>, includeArg: Filter, excludeArg: Filter)
    requires !Truthy(includeArg) && !Truthy(excludeArg)
    ensures ToDict(cols, includeArg, excludeArg) == Ok(AllEntries(cols))
    decreases |cols|
  {
    if cols != [] {
      var tail := cols[1..];
      UnfilteredKeepsAll(tail, includeArg, excludeArg);
      assert Kept(cols[0], includeArg, excludeArg);
      assert AllEntries(cols) == [(cols[0].key, cols[0].value)] + AllEntries(tail);
    }
  }

  /**
   * As written: column names given as strings never match a column
   * property, so a non-empty `includeArg` of names selects nothing.
   */
  lemma {:induction false} IncludeByNameSelectsNothing<V>(cols: seq<Column<V>>, names: seq<string>)
    requires |names| > 0
    ensures ToDict(cols, ListFilter(seq(|names|, i requires 0 <= i < |names| => OtherItem(names[i]))), NoFilter) == Ok([])
    decreases |cols|
  {
    if cols != [] {
      IncludeByNameSelectsNothing(cols[1..], names);
    }
  }

  // ---------------------------------------------------------------------
  // Column selection by key, as evidently intended

  /** `column.key in items`, for lists of column names. */
  predicate KeyListed<V>(c: Column<V>, items: seq<Item>)
  {
    OtherItem(c.key) in items
  }

  predicate KeptByKey<V>(c: Column<V>, includeArg: Filter, excludeArg: Filter)
  {
    && (Truthy(includeArg) ==> includeArg.ListFilter? && KeyListed(c, includeArg.items))
    && (Truthy(excludeArg) ==> excludeArg.ListFilter? && !KeyListed(c, excludeArg.items))
  }

  function EntriesByKey<V>(cols: seq<Column<V>>, includeArg: Filter, excludeArg: Filter): (r: seq<(string, V)>)
    ensures |r| <= |cols|
  {
    if cols == [] then []
    else
      var rest := EntriesByKey(cols[1..], includeArg, excludeArg);
      if KeptByKey(cols[0], includeArg, excludeArg) then [(cols[0].key, cols[0].value)] + rest else rest
  }

  /** `to_dict` with the filters compared against column keys. */
  function ToDictByKey<V>(cols: seq<Column<V>>, includeArg: Filter, excludeArg: Filter): (r: Result<seq<(string, V)>, string>)
    ensures r.Err? <==> (Truthy(includeArg) && !includeArg.ListFilter?) || (Truthy(excludeArg) && !excludeArg.ListFilter?)
    ensures r.Ok? ==> |r.value| <= |cols|
  {
    if Truthy(includeArg) && !includeArg.ListFilter? then Err("The 'include' argument must be a valid list or None")
    else if Truthy(excludeArg) && !excludeArg.ListFilter? then Err("The 'exclude' argument must be a valid list or None")
    else Ok(EntriesByKey(cols, includeArg, excludeArg))
  }

  /** Corrected: the keys of the result are exactly the included names that are not excluded. */
  lemma {:induction false} ToDictByKeySelects<V>(cols: seq<Column<V>>, names: seq<string>, dropped: seq<string>)
    requires |names| > 0
    ensures ToDictByKey(cols, ListFilter(seq(|names|, i requires 0 <= i < |names| => OtherItem(names[i]))),
                              ListFilter(seq(|dropped|, i requires 0 <= i < |dropped| => OtherItem(dropped[i])))).Ok?
    ensures forall e :: e in ToDictByKey(cols, ListFilter(seq(|names|, i requires 0 <= i < |names| => OtherItem(names[i]))),
                                              ListFilter(seq(|dropped|, i requires 0 <= i < |dropped| => OtherItem(dropped[i])))).value
              ==> e.0 in names && e.0 !in dropped
    ensures forall c :: c in cols && c.key in names && c.key !in dropped ==>
              (c.key, c.value) in ToDictByKey(cols, ListFilter(seq(|names|, i requires 0 <= i < |names| => OtherItem(names[i]))),
                                                    ListFilter(seq(|dropped|, i requires 0 <= i < |dropped| => OtherItem(dropped[i])))).value
    decreases |cols|
  {
    var inc := ListFilter(seq(|names|, i requires 0 <= i < |names| => OtherItem(names[i])));
    var exc := ListFilter(seq(|dropped|, i requires 0 <= i < |dropped| => OtherItem(dropped[i])));
    assert forall k :: OtherItem(k) in inc.items <==> k in names by {
      forall k ensures OtherItem(k) in inc.items <==> k in names {
        if k in names { var i :| 0 <= i < |names| && names[i] == k; assert inc.items[i] == OtherItem(k); }
      }
    }
    assert forall k :: OtherItem(k) in exc.items <==> k in dropped by {
      forall k ensures OtherItem(k) in exc.items <==> k in dropped {
        if k in dropped { var i :| 0 <= i < |dropped| && dropped[i] == k; assert exc.items[i] == OtherItem(k); }
      }
    }
    if cols != [] {
      ToDictByKeySelects(cols[1..], names, dropped);
      forall c | c in cols && c.key in names && c.key !in dropped
        ensures (c.key, c.value) in EntriesByKey(cols, inc, exc)
      {
        if c != cols[0] { assert c in cols[1..]; }
      }
    }
  }
}
