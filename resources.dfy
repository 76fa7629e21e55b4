/**
  The supervisor's resource spots: their records, the cylinder radius that
  shows each spot's value, and the per-tick refresh that resizes the cylinders
  and removes the depleted ones.
 */
module Resources {
  import opened Wrappers

  const NumResources: nat := 10
  const ResourceMin: int := 1
  const ResourceMax: int := 10

  /** The record written for each spot at creation: its index (its name is `resource_<index>`), position and value. */
  datatype ResourceRecord = ResourceRecord(index: nat, x: real, y: real, value: int)

  /** The radius of the cylinder that shows a spot of the given value; creation and refresh both use it. */
  function ShapeRadius(value: real): real {
    0.1 + (value - 1.0) * 0.02
  }

  /** A larger value always shows as a larger cylinder. */
  lemma ShapeRadiusGrows(v: real, w: real)
    requires v < w
    ensures ShapeRadius(v) < ShapeRadius(w)
  {
  }

  /** Every value `randint` draws gives a radius in [0.1, 0.28], the bounds reached at the two ends. */
  lemma ShapeRadiusRange(v: real)
    requires ResourceMin as real <= v <= ResourceMax as real
    ensures 0.1 <= ShapeRadius(v) <= 0.28
    ensures ShapeRadius(ResourceMin as real) == 0.1 && ShapeRadius(ResourceMax as real) == 0.28
  {
  }

  /** The records of the spots created at start-up, one per drawn value and position, indexed from 0. */
  function SeededRecords(values: seq<int>, spots: seq<(real, real)>): (records: seq<ResourceRecord>)
    requires |spots| == |values|
    ensures |records| == |values|
    ensures forall i :: 0 <= i < |records| ==> records[i].index == i && records[i].value == values[i]
  {
    seq(|values|, i requires 0 <= i < |values| => ResourceRecord(i, spots[i].0, spots[i].1, values[i]))
  }

  /** The cylinders created at start-up, keyed by the index in their `RESOURCE_<index>` name. */
  function SeededNodes(values: seq<int>): (nodes: map<nat, real>)
    ensures forall i: nat :: i in nodes <==> i < |values|
    ensures forall i :: 0 <= i < |values| ==> nodes[i] == ShapeRadius(values[i] as real)
  {
    map i: nat | i < |values| :: ShapeRadius(values[i] as real)
  }

  /** Creating spot `i` extends the records and cylinders of the first `i` spots by one. */
  lemma SeededStep(values: seq<int>, spots: seq<(real, real)>, i: nat, records: seq<ResourceRecord>, nodes: map<nat, real>)
    requires i < |values| == |spots|
    ensures records + SeededRecords(values[..i + 1], spots[..i + 1]) ==
      records + SeededRecords(values[..i], spots[..i]) + [ResourceRecord(i, spots[i].0, spots[i].1, values[i])]
    ensures nodes + SeededNodes(values[..i + 1]) == (nodes + SeededNodes(values[..i]))[i := ShapeRadius(values[i] as real)]
  {
    var longer := SeededRecords(values[..i + 1], spots[..i + 1]);
    assert longer == SeededRecords(values[..i], spots[..i]) + [ResourceRecord(i, spots[i].0, spots[i].1, values[i])];
  }

  /**
    The `value` entry of one record of the refreshed resource file: missing
    (`resource["value"]` raises), a number, or something that is not a number
    (comparing it with 0 raises).
   */
  datatype ValueField = NoValue | Number(v: real) | NotNumber

  /**
    The state a refresh reaches: the cylinders present, keyed by index, the
    indices removed in order, and whether an exception ended the loop.
   */
  datatype Refreshed = Refreshed(nodes: map<nat, real>, removed: seq<nat>, aborted: bool)

  /** One iteration: the value is read first, then a missing node is skipped, then it is removed or resized. */
  function RefreshAt(r: Refreshed, i: nat, field: ValueField): Refreshed {
    if field.NoValue? then r.(aborted := true)
    else if i !in r.nodes then r
    else if field.NotNumber? then r.(aborted := true)
    else if field.v <= 0.0 then r.(nodes := r.nodes - {i}, removed := r.removed + [i])
    else r.(nodes := r.nodes[i := ShapeRadius(field.v)])
  }

  /** `update_resource_shapes` over the records in file order; an exception ends the loop. */
  function Refresh(nodes: map<nat, real>, updated: seq<ValueField>): Refreshed {
    if updated == [] then Refreshed(nodes, [], false)
    else
      var n := |updated| - 1;
      var before := Refresh(nodes, updated[..n]);
      if before.aborted then before else RefreshAt(before, n, updated[n])
  }

  /** Once a prefix of the file has raised, the refresh of the whole file stops at the same state. */
  lemma {:induction false} RefreshSticks(nodes: map<nat, real>, updated: seq<ValueField>, k: nat)
    requires k <= |updated| && Refresh(nodes, updated[..k]).aborted
    ensures Refresh(nodes, updated) == Refresh(nodes, updated[..k])
  {
    if k < |updated| {
      var n := |updated| - 1;
      assert updated[..n][..k] == updated[..k];
      RefreshSticks(nodes, updated[..n], k);
    } else {
      assert updated[..k] == updated;
    }
  }

  /** The whole refresh, where a resource file that cannot be read or parsed changes nothing. */
  function RefreshFile(nodes: map<nat, real>, updated: Option<seq<ValueField>>): Refreshed {
    match updated
    case None => Refreshed(nodes, [], true)
    case Some(fields) => Refresh(nodes, fields)
  }

  /** Record `i` raises when its value is missing, or when its node exists and its value is not a number. */
  predicate Aborts(nodes: map<nat, real>, i: nat, field: ValueField) {
    field.NoValue? || (field.NotNumber? && i in nodes)
  }

  /** None of the first `k` records raises. */
  predicate Clean(nodes: map<nat, real>, updated: seq<ValueField>, k: nat)
    requires k <= |updated|
  {
    forall j :: 0 <= j < k ==> !Aborts(nodes, j, updated[j])
  }

  /** What the iteration for record `i` leaves at index `i`. */
  predicate Applied(nodes: map<nat, real>, i: nat, field: ValueField, after: map<nat, real>) {
    && (i !in nodes ==> i !in after)
    && (i in nodes && field.Number? && field.v <= 0.0 ==> i !in after)
    && (i in nodes && field.Number? && field.v > 0.0 ==> i in after && after[i] == ShapeRadius(field.v))
  }

  predicate Untouched(nodes: map<nat, real>, i: nat, after: map<nat, real>) {
    (i in nodes <==> i in after) && (i in nodes ==> after[i] == nodes[i])
  }

  predicate Ascending(s: seq<nat>) {
    forall i, j :: 0 <= i < j < |s| ==> s[i] < s[j]
  }

  /**
    Per index, in file order: up to the first record that raises, a missing
    node stays missing, a value <= 0 removes the node and a positive value sets
    the radius by the creation formula; every other node is untouched. The
    removals are listed once each, in ascending order, and no node ever appears.
   */
  lemma RefreshSpec(nodes: map<nat, real>, updated: seq<ValueField>)
    ensures Refresh(nodes, updated).nodes.Keys <= nodes.Keys
    ensures Refresh(nodes, updated).aborted <==> !Clean(nodes, updated, |updated|)
    ensures forall i :: 0 <= i < |updated| && Clean(nodes, updated, i + 1) ==>
              Applied(nodes, i, updated[i], Refresh(nodes, updated).nodes)
    ensures forall i: nat :: (i >= |updated| || !Clean(nodes, updated, i + 1)) ==>
              Untouched(nodes, i, Refresh(nodes, updated).nodes)
    ensures forall i: nat :: i in Refresh(nodes, updated).removed <==>
              i < |updated| && Clean(nodes, updated, i + 1) && i in nodes &&
              updated[i].Number? && updated[i].v <= 0.0
    ensures Ascending(Refresh(nodes, updated).removed)
    ensures forall i :: i in Refresh(nodes, updated).removed ==> i < |updated|
  {
    RefreshBeyond(nodes, updated);
    RefreshAborts(nodes, updated);
    RefreshFate(nodes, updated);
    RefreshRemoved(nodes, updated);
  }

  /** No cylinder appears, and those past the end of the file are untouched. */
  lemma {:induction false} RefreshBeyond(nodes: map<nat, real>, updated: seq<ValueField>)
    ensures Refresh(nodes, updated).nodes.Keys <= nodes.Keys
    ensures forall i: nat :: i >= |updated| ==> Untouched(nodes, i, Refresh(nodes, updated).nodes)
  {
    if updated != [] {
      RefreshBeyond(nodes, updated[..|updated| - 1]);
    }
  }

  /** Prefixes of one file agree on which of their records raise. */
  lemma CleanPrefix(nodes: map<nat, real>, updated: seq<ValueField>, n: nat)
    requires n <= |updated|
    ensures forall k :: 0 <= k <= n ==> (Clean(nodes, updated[..n], k) <==> Clean(nodes, updated, k))
  {
    assert forall j :: 0 <= j < n ==> updated[..n][j] == updated[j];
  }

  /** The refresh raises exactly when some record raises. */
  lemma {:induction false} RefreshAborts(nodes: map<nat, real>, updated: seq<ValueField>)
    ensures Refresh(nodes, updated).aborted <==> !Clean(nodes, updated, |updated|)
  {
    if updated != [] {
      var n := |updated| - 1;
      var init := updated[..n];
      RefreshAborts(nodes, init);
      RefreshBeyond(nodes, init);
      CleanPrefix(nodes, updated, n);
      assert Untouched(nodes, n, Refresh(nodes, init).nodes);
    }
  }

  /** Up to the first record that raises each record has its effect, and every other cylinder is untouched. */
  lemma RefreshFate(nodes: map<nat, real>, updated: seq<ValueField>)
    ensures forall i :: 0 <= i < |updated| && Clean(nodes, updated, i + 1) ==>
              Applied(nodes, i, updated[i], Refresh(nodes, updated).nodes)
    ensures forall i: nat :: (i >= |updated| || !Clean(nodes, updated, i + 1)) ==>
              Untouched(nodes, i, Refresh(nodes, updated).nodes)
  {
    RefreshApplied(nodes, updated);
    RefreshUntouched(nodes, updated);
  }

  lemma {:induction false} RefreshApplied(nodes: map<nat, real>, updated: seq<ValueField>)
    ensures forall i :: 0 <= i < |updated| && Clean(nodes, updated, i + 1) ==>
              Applied(nodes, i, updated[i], Refresh(nodes, updated).nodes)
  {
    if updated != [] {
      var n := |updated| - 1;
      var init := updated[..n];
      RefreshApplied(nodes, init);
      RefreshAborts(nodes, init);
      RefreshBeyond(nodes, init);
      CleanPrefix(nodes, updated, n);
      var before, after := Refresh(nodes, init), Refresh(nodes, updated);
      assert Untouched(nodes, n, before.nodes);
      if !before.aborted {
        assert after == RefreshAt(before, n, updated[n]);
        assert forall i: nat :: i != n ==> Untouched(before.nodes, i, after.nodes);
      }
    }
  }

  lemma {:induction false} RefreshUntouched(nodes: map<nat, real>, updated: seq<ValueField>)
    ensures forall i: nat :: (i >= |updated| || !Clean(nodes, updated, i + 1)) ==>
              Untouched(nodes, i, Refresh(nodes, updated).nodes)
  {
    if updated != [] {
      var n := |updated| - 1;
      var init := updated[..n];
      RefreshUntouched(nodes, init);
      RefreshAborts(nodes, init);
      CleanPrefix(nodes, updated, n);
      var before, after := Refresh(nodes, init), Refresh(nodes, updated);
      if !before.aborted {
        RefreshBeyond(nodes, init);
        assert Untouched(nodes, n, before.nodes);
        assert after == RefreshAt(before, n, updated[n]);
        forall i: nat | i >= |updated| || !Clean(nodes, updated, i + 1)
          ensures Untouched(nodes, i, after.nodes)
        {
          if i == n {
            assert after.nodes == before.nodes;
          } else {
            assert Untouched(nodes, i, before.nodes);
            assert Untouched(before.nodes, i, after.nodes);
          }
        }
      }
    }
  }

  /** The removed list holds, in ascending order, exactly the existing indices whose value is at most 0, up to the first record that raises. */
  lemma {:induction false} RefreshRemoved(nodes: map<nat, real>, updated: seq<ValueField>)
    ensures forall i: nat :: i in Refresh(nodes, updated).removed <==>
              i < |updated| && Clean(nodes, updated, i + 1) && i in nodes &&
              updated[i].Number? && updated[i].v <= 0.0
    ensures Ascending(Refresh(nodes, updated).removed)
    ensures forall i :: i in Refresh(nodes, updated).removed ==> i < |updated|
  {
    if updated != [] {
      var n := |updated| - 1;
      var init := updated[..n];
      RefreshRemoved(nodes, init);
      RefreshAborts(nodes, init);
      RefreshBeyond(nodes, init);
      CleanPrefix(nodes, updated, n);
      var before, after := Refresh(nodes, init), Refresh(nodes, updated);
      assert Untouched(nodes, n, before.nodes);
      if !before.aborted && after.removed != before.removed {
        assert after.removed == before.removed + [n];
        forall i, j | 0 <= i < j < |after.removed| ensures after.removed[i] < after.removed[j] {
          if j == |before.removed| {
            assert before.removed[i] in before.removed;
          }
        }
      }
    }
  }

  /** A node that one refresh removes is absent afterwards, so no later refresh removes it again. */
  lemma RemovedAtMostOnce(nodes: map<nat, real>, first: seq<ValueField>, second: seq<ValueField>)
    ensures forall i :: i in Refresh(nodes, first).removed ==> i in nodes && i !in Refresh(nodes, first).nodes
    ensures forall i :: i in Refresh(nodes, first).removed ==> i !in Refresh(Refresh(nodes, first).nodes, second).removed
  {
    var after := Refresh(nodes, first).nodes;
    RefreshSpec(nodes, first);
    RefreshSpec(after, second);
  }

  /** Refreshing twice from the same resource file is refreshing once, and the second pass removes nothing. */
  lemma RefreshIdempotent(nodes: map<nat, real>, updated: seq<ValueField>)
    ensures Refresh(Refresh(nodes, updated).nodes, updated).nodes == Refresh(nodes, updated).nodes
    ensures forall i :: i !in Refresh(Refresh(nodes, updated).nodes, updated).removed
  {
    var once := Refresh(nodes, updated).nodes;
    var twice := Refresh(once, updated).nodes;
    RefreshSpec(nodes, updated);
    RefreshSpec(once, updated);
    forall k | 0 <= k <= |updated| ensures Clean(once, updated, k) == Clean(nodes, updated, k) {
      CleanAgrees(nodes, once, updated, k);
    }
    forall i: nat ensures (i in twice <==> i in once) && (i in once ==> twice[i] == once[i]) {
      if i < |updated| && Clean(nodes, updated, i + 1) {
        assert Applied(nodes, i, updated[i], once);
        assert Applied(once, i, updated[i], twice);
      } else {
        assert Untouched(once, i, twice);
      }
    }
    assert twice.Keys == once.Keys;
  }

  /** The first pass leaves every index that might raise as it was, so both passes stop at the same record. */
  lemma {:induction false} CleanAgrees(nodes: map<nat, real>, once: map<nat, real>, updated: seq<ValueField>, k: nat)
    requires k <= |updated|
    requires once == Refresh(nodes, updated).nodes
    ensures Clean(once, updated, k) == Clean(nodes, updated, k)
  {
    if k > 0 {
      CleanAgrees(nodes, once, updated, k - 1);
      var j := k - 1;
      if Clean(nodes, updated, j) {
        SameAborts(nodes, updated, j);
      }
    }
  }

  /** Up to the first record that raises, whether record `j` raises is the same before and after the refresh. */
  lemma SameAborts(nodes: map<nat, real>, updated: seq<ValueField>, j: nat)
    requires j < |updated| && Clean(nodes, updated, j)
    ensures Aborts(Refresh(nodes, updated).nodes, j, updated[j]) == Aborts(nodes, j, updated[j])
  {
    var once := Refresh(nodes, updated).nodes;
    RefreshSpec(nodes, updated);
    if Clean(nodes, updated, j + 1) {
      assert Applied(nodes, j, updated[j], once);
    } else {
      assert Untouched(nodes, j, once);
    }
  }

  /** Refreshing freshly created cylinders with their own values changes none of them: one formula serves both. */
  lemma CreationMatchesRefresh(values: seq<int>)
    requires forall i :: 0 <= i < |values| ==> ResourceMin <= values[i]
    ensures Refresh(SeededNodes(values), seq(|values|, i requires 0 <= i < |values| => Number(values[i] as real))).nodes
            == SeededNodes(values)
  {
    var nodes := SeededNodes(values);
    var fields := seq(|values|, i requires 0 <= i < |values| => Number(values[i] as real));
    RefreshSpec(nodes, fields);
    var after := Refresh(nodes, fields).nodes;
    assert Clean(nodes, fields, |fields|);
    forall i: nat | i in nodes ensures i in after && after[i] == nodes[i] {
      assert Clean(nodes, fields, i + 1);
      assert Applied(nodes, i, fields[i], after);
    }
    assert after.Keys == nodes.Keys;
  }
}
