/**
 * The "Sum Points Value To Neighboring Polygons" processing algorithm: optionally zero a numeric
 * field of every polygon, then, for every point, add the point's value to that field of every
 * polygon selected for the point, and commit the edits once at the end.
 *
 * The two `native:selectbylocation` runs are oracles: `containing(point)` is the set of polygons
 * the first run (predicate "contains") selects, `touching(selected)` the set the second run
 * (predicates "touches" and "overlaps", against the polygons selected so far) selects. Both runs
 * start a new selection, and only features of the polygon layer can be selected.
 */
module SumPoints {

  type FeatureId = int

  /** A feature's attribute table row, field name to value. */
  type Attributes = map<string, real>

  /** A point feature: its id and the value of the field holding the values to add. */
  datatype PointFeature = PointFeature(id: FeatureId, value: real)

  /** The selection oracles standing for the two `native:selectbylocation` runs. */
  datatype Selector = Selector(containing: FeatureId -> set<FeatureId>,
                               touching: set<FeatureId> -> set<FeatureId>)

  /** The polygons selected for point `pt` in a layer whose features are `ids`. */
  function Selected(sel: Selector, ids: set<FeatureId>, pt: PointFeature): (r: set<FeatureId>)
    ensures r <= ids
  {
    sel.touching(sel.containing(pt.id) * ids) * ids
  }

  /** `field` set to 0 in every row listed in `which`. */
  function Zeroed(table: map<FeatureId, Attributes>, field: string, which: set<FeatureId>): map<FeatureId, Attributes>
  {
    map id | id in table :: if id in which && field in table[id] then table[id][field := 0.0] else table[id]
  }

  /** `v` added to `field` of every row listed in `which`. */
  function AddTo(table: map<FeatureId, Attributes>, field: string, which: set<FeatureId>, v: real): map<FeatureId, Attributes>
  {
    map id | id in table :: if id in which && field in table[id] then table[id][field := table[id][field] + v] else table[id]
  }

  /** The table as it stands after the points of `pts` were processed one after the other. */
  function Replay(table: map<FeatureId, Attributes>, field: string, sel: Selector, ids: set<FeatureId>,
                  pts: seq<PointFeature>): map<FeatureId, Attributes>
  {
    if pts == [] then table
    else
      var last := pts[|pts| - 1];
      AddTo(Replay(table, field, sel, ids, pts[..|pts| - 1]), field, Selected(sel, ids, last), last.value)
  }

  /** The sum of the values of the points of `pts` whose selection contains polygon `id`. */
  function Accumulated(sel: Selector, ids: set<FeatureId>, pts: seq<PointFeature>, id: FeatureId): real
  {
    if pts == [] then 0.0
    else
      var last := pts[|pts| - 1];
      Accumulated(sel, ids, pts[..|pts| - 1], id) + (if id in Selected(sel, ids, last) then last.value else 0.0)
  }

  /**
   * The final-table equation: every polygon's `field` is its base value plus the values of the
   * points whose selection contains it; nothing else in the table differs from the base.
   */
  function FinalTable(base: map<FeatureId, Attributes>, field: string, sel: Selector, ids: set<FeatureId>,
                      pts: seq<PointFeature>): (r: map<FeatureId, Attributes>)
    ensures r.Keys == base.Keys
    ensures forall id :: id in base ==> r[id].Keys == base[id].Keys
    ensures forall id, f :: id in base && f in base[id] && f != field ==> r[id][f] == base[id][f]
    ensures forall id :: id in base && field in base[id] ==>
              r[id][field] == base[id][field] + Accumulated(sel, ids, pts, id)
  {
    map id | id in base :: if field in base[id] then base[id][field := base[id][field] + Accumulated(sel, ids, pts, id)] else base[id]
  }

  /** Polygon `id` after the points of `pts`: its base row, its `field` grown by what it received. */
  lemma {:induction false} ReplayEntry(base: map<FeatureId, Attributes>, field: string, sel: Selector,
                                       ids: set<FeatureId>, pts: seq<PointFeature>, id: FeatureId)
    requires id in base
    ensures var after := Replay(base, field, sel, ids, pts);
            id in after
            && after[id] == if field in base[id] then base[id][field := base[id][field] + Accumulated(sel, ids, pts, id)]
                            else base[id]
  {
    if pts == [] {
      if field in base[id] {
        assert base[id][field := base[id][field] + 0.0] == base[id];
      }
    } else {
      var init := pts[..|pts| - 1];
      var last := pts[|pts| - 1];
      ReplayEntry(base, field, sel, ids, init, id);
      if field in base[id] {
        var acc := Accumulated(sel, ids, init, id);
        if id in Selected(sel, ids, last) {
          assert base[id][field] + acc + last.value == base[id][field] + (acc + last.value);
        }
      }
    }
  }

  /** Processing the points one after the other yields the final-table equation. */
  lemma ReplayIsFinalTable(base: map<FeatureId, Attributes>, field: string, sel: Selector,
                           ids: set<FeatureId>, pts: seq<PointFeature>)
    ensures Replay(base, field, sel, ids, pts) == FinalTable(base, field, sel, ids, pts)
  {
    var after := Replay(base, field, sel, ids, pts);
    var expected := FinalTable(base, field, sel, ids, pts);
    forall id | id in base ensures id in after && after[id] == expected[id] {
      ReplayEntry(base, field, sel, ids, pts, id);
    }
    ReplayKeys(base, field, sel, ids, pts);
  }

  /** Replaying points neither adds nor removes polygons. */
  lemma {:induction false} ReplayKeys(base: map<FeatureId, Attributes>, field: string, sel: Selector,
                                      ids: set<FeatureId>, pts: seq<PointFeature>)
    ensures Replay(base, field, sel, ids, pts).Keys == base.Keys
  {
    if pts != [] {
      ReplayKeys(base, field, sel, ids, pts[..|pts| - 1]);
    }
  }

  /** A polygon no point selects keeps its base value. */
  lemma {:induction false} NeverSelectedKeepsBase(sel: Selector, ids: set<FeatureId>, pts: seq<PointFeature>, id: FeatureId)
    requires forall k :: 0 <= k < |pts| ==> id !in Selected(sel, ids, pts[k])
    ensures Accumulated(sel, ids, pts, id) == 0.0
  {
    if pts != [] {
      var init := pts[..|pts| - 1];
      forall k | 0 <= k < |init| ensures id !in Selected(sel, ids, init[k]) {
        assert init[k] == pts[k];
      }
      NeverSelectedKeepsBase(sel, ids, init, id);
      assert id !in Selected(sel, ids, pts[|pts| - 1]);
    }
  }

  /** Points later in the iteration add on top of earlier ones: the contribution of a run splits at any point. */
  lemma {:induction false} AccumulatedSplits(sel: Selector, ids: set<FeatureId>, a: seq<PointFeature>,
                                             b: seq<PointFeature>, id: FeatureId)
    ensures Accumulated(sel, ids, a + b, id) == Accumulated(sel, ids, a, id) + Accumulated(sel, ids, b, id)
  {
    if b == [] {
      assert a + b == a;
    } else {
      var initB := b[..|b| - 1];
      AccumulatedSplits(sel, ids, a, initB, id);
      assert (a + b)[..|a + b| - 1] == a + initB;
      assert (a + b)[|a + b| - 1] == b[|b| - 1];
    }
  }

  /** The point layer; only its selection changes. */
  class PointLayer {
    const features: seq<PointFeature>
    var selection: set<FeatureId>

    constructor (features: seq<PointFeature>)
      ensures this.features == features && selection == {}
    {
      this.features := features;
      selection := {};
    }

    /** `selectByExpression("$id = …")`: the selection becomes that one point. */
    method SelectById(id: FeatureId)
      modifies this
      ensures selection == {id}
    {
      selection := {id};
    }
  }

  /**
   * The polygon layer: the committed table of its data provider, the table as the layer shows it
   * (with the edit buffer applied), whether it is in editing mode, and its selection.
   */
  class PolygonLayer {
    const order: seq<FeatureId>
    const ids: set<FeatureId>
    var stored: map<FeatureId, Attributes>
    var shown: map<FeatureId, Attributes>
    var editing: bool
    var selection: set<FeatureId>
    ghost var commits: nat

    ghost predicate Valid()
      reads this
    {
      && (forall id :: id in ids <==> id in order)
      && (forall a, b :: 0 <= a < b < |order| ==> order[a] != order[b])
      && stored.Keys == ids
      && shown.Keys == ids
      && selection <= ids
      && (!editing ==> shown == stored)
    }

    /** Every feature of the layer has the attribute `field`. */
    ghost predicate HasField(field: string)
      reads this
    {
      forall id :: id in shown ==> field in shown[id]
    }

    constructor (order: seq<FeatureId>, table: map<FeatureId, Attributes>)
      requires forall id :: id in table <==> id in order
      requires forall a, b :: 0 <= a < b < |order| ==> order[a] != order[b]
      ensures Valid() && this.order == order && ids == table.Keys && stored == table
      ensures !editing && selection == {} && commits == 0
    {
      this.order := order;
      ids := table.Keys;
      stored := table;
      shown := table;
      editing := false;
      selection := {};
      commits := 0;
    }

    method StartEditing()
      requires Valid()
      modifies this
      ensures Valid() && editing
      ensures stored == old(stored) && shown == old(shown) && selection == old(selection) && commits == old(commits)
    {
      editing := true;
    }

    /** `changeAttributeValue`: takes effect only in editing mode, on an existing feature and field. */
    method ChangeAttributeValue(id: FeatureId, field: string, value: real) returns (ok: bool)
      requires Valid()
      modifies this
      ensures Valid()
      ensures ok <==> editing && id in shown && field in shown[id]
      ensures shown == if ok then old(shown)[id := old(shown)[id][field := value]] else old(shown)
      ensures stored == old(stored) && editing == old(editing) && selection == old(selection) && commits == old(commits)
    {
      ok := editing && id in shown && field in shown[id];
      if ok {
        shown := shown[id := shown[id][field := value]];
      }
    }

    /** `native:selectbylocation` with method 0: a new selection, restricted to this layer's features. */
    method SelectByLocation(found: set<FeatureId>)
      requires Valid()
      modifies this
      ensures Valid() && selection == found * ids
      ensures stored == old(stored) && shown == old(shown) && editing == old(editing) && commits == old(commits)
    {
      selection := found * ids;
    }

    /** `commitChanges`: the edit buffer becomes the provider's table and editing ends. */
    method CommitChanges()
      requires Valid()
      modifies this
      ensures Valid() && !editing && stored == old(shown) && shown == old(shown)
      ensures selection == old(selection) && commits == old(commits) + 1
    {
      stored := shown;
      editing := false;
      commits := commits + 1;
    }
  }

  /** The table the accumulation starts from: the layer's table, zeroed first when asked. */
  function Base(table: map<FeatureId, Attributes>, field: string, zeroValues: bool): map<FeatureId, Attributes>
  {
    if zeroValues then Zeroed(table, field, table.Keys) else table
  }

  /**
   * `processAlgorithm`: start editing, optionally zero `field` in every polygon, add each point's
   * value to `field` of the polygons selected for it, and commit once.
   */
  method ProcessAlgorithm(points: PointLayer, polygons: PolygonLayer, field: string, zeroValues: bool, sel: Selector)
    requires polygons.Valid() && polygons.HasField(field)
    modifies points, polygons
    ensures polygons.Valid() && !polygons.editing
    ensures polygons.stored == FinalTable(Base(old(polygons.shown), field, zeroValues), field, sel, polygons.ids, points.features)
    ensures polygons.commits == old(polygons.commits) + 1
    ensures points.features != [] ==>
              points.selection == {points.features[|points.features| - 1].id}
              && polygons.selection == Selected(sel, polygons.ids, points.features[|points.features| - 1])
    ensures points.features == [] ==>
              points.selection == old(points.selection) && polygons.selection == old(polygons.selection)
  {
    polygons.StartEditing();
    ghost var view := polygons.shown;
    if zeroValues {
      ZeroField(polygons, field);
    }
    ghost var base := polygons.shown;
    assert base == Base(view, field, zeroValues);
    ProcessPoints(points, polygons, field, sel);
    ReplayIsFinalTable(base, field, sel, polygons.ids, points.features);
    polygons.CommitChanges();
  }

  /**
   * The loop over the points: each point's value is added to the polygons selected for it, in
   * the order of the point layer, and the selections left are those of the last point.
   */
  method ProcessPoints(points: PointLayer, polygons: PolygonLayer, field: string, sel: Selector)
    requires polygons.Valid() && polygons.editing && polygons.HasField(field)
    modifies points, polygons
    ensures polygons.Valid() && polygons.editing && polygons.HasField(field)
    ensures polygons.shown == Replay(old(polygons.shown), field, sel, polygons.ids, points.features)
    ensures polygons.stored == old(polygons.stored) && polygons.commits == old(polygons.commits)
    ensures points.features != [] ==>
              points.selection == {points.features[|points.features| - 1].id}
              && polygons.selection == Selected(sel, polygons.ids, points.features[|points.features| - 1])
    ensures points.features == [] ==>
              points.selection == old(points.selection) && polygons.selection == old(polygons.selection)
  {
    ghost var base := polygons.shown;
    var pts := points.features;
    var i := 0;
    while i < |pts|
      invariant 0 <= i <= |pts|
      invariant polygons.Valid() && polygons.editing && polygons.HasField(field)
      invariant polygons.stored == old(polygons.stored) && polygons.commits == old(polygons.commits)
      invariant polygons.shown == Replay(base, field, sel, polygons.ids, pts[..i])
      invariant i > 0 ==> points.selection == {pts[i - 1].id} && polygons.selection == Selected(sel, polygons.ids, pts[i - 1])
      invariant i == 0 ==> points.selection == old(points.selection) && polygons.selection == old(polygons.selection)
    {
      ProcessPoint(points, polygons, field, sel, pts[i]);
      assert pts[..i + 1][..i] == pts[..i];
      i := i + 1;
    }
    assert pts[..i] == pts;
  }

  /**
   * One pass of the loop over the points: select the point, select the polygons containing it and
   * then those touching them, and add the point's value to each selected polygon.
   */
  method ProcessPoint(points: PointLayer, polygons: PolygonLayer, field: string, sel: Selector, pt: PointFeature)
    requires polygons.Valid() && polygons.editing && polygons.HasField(field)
    modifies points, polygons
    ensures polygons.Valid() && polygons.editing && polygons.HasField(field)
    ensures polygons.shown == AddTo(old(polygons.shown), field, Selected(sel, polygons.ids, pt), pt.value)
    ensures points.selection == {pt.id} && polygons.selection == Selected(sel, polygons.ids, pt)
    ensures polygons.stored == old(polygons.stored) && polygons.commits == old(polygons.commits)
  {
    points.SelectById(pt.id);
    polygons.SelectByLocation(sel.containing(pt.id));
    polygons.SelectByLocation(sel.touching(polygons.selection));
    AddToSelection(polygons, field, pt.value);
  }

  /**
   * The loop over `getSelectedFeatures()`, which visits the selected polygons in the layer's
   * feature order: `value` is added once to `field` of each of them.
   */
  method AddToSelection(polygons: PolygonLayer, field: string, value: real)
    requires polygons.Valid() && polygons.editing && polygons.HasField(field)
    modifies polygons
    ensures polygons.Valid() && polygons.editing && polygons.HasField(field)
    ensures polygons.shown == AddTo(old(polygons.shown), field, old(polygons.selection), value)
    ensures polygons.stored == old(polygons.stored) && polygons.selection == old(polygons.selection)
    ensures polygons.commits == old(polygons.commits)
  {
    ghost var before := polygons.shown;
    var order := polygons.order;
    var k := 0;
    while k < |order|
      invariant 0 <= k <= |order|
      invariant polygons.Valid() && polygons.editing && polygons.HasField(field)
      invariant polygons.shown.Keys == before.Keys
      invariant forall id :: id in before ==>
                  polygons.shown[id] == if id in order[..k] && id in polygons.selection && field in before[id]
                                        then before[id][field := before[id][field] + value] else before[id]
      invariant polygons.stored == old(polygons.stored) && polygons.selection == old(polygons.selection)
      invariant polygons.commits == old(polygons.commits)
    {
      var id := order[k];
      if id in polygons.selection {
        assert id !in order[..k] by {
          forall m | 0 <= m < k ensures order[m] != id {
          }
        }
        var ok := polygons.ChangeAttributeValue(id, field, polygons.shown[id][field] + value);
      }
      assert forall x :: x in order[..k + 1] <==> x in order[..k] || x == id;
      k := k + 1;
    }
    assert order[..k] == order;
    ghost var expected := AddTo(before, field, old(polygons.selection), value);
    forall id | id in expected ensures polygons.shown[id] == expected[id] {
      assert id in polygons.selection ==> id in order;
    }
  }

  /** The zeroing pass over `getFeatures()`: `field` of every polygon is set to 0, in feature order. */
  method ZeroField(polygons: PolygonLayer, field: string)
    requires polygons.Valid() && polygons.editing && polygons.HasField(field)
    modifies polygons
    ensures polygons.Valid() && polygons.editing && polygons.HasField(field)
    ensures polygons.shown == Zeroed(old(polygons.shown), field, polygons.ids)
    ensures polygons.stored == old(polygons.stored) && polygons.selection == old(polygons.selection)
    ensures polygons.commits == old(polygons.commits)
  {
    ghost var before := polygons.shown;
    var order := polygons.order;
    var k := 0;
    while k < |order|
      invariant 0 <= k <= |order|
      invariant polygons.Valid() && polygons.editing && polygons.HasField(field)
      invariant polygons.shown.Keys == before.Keys
      invariant forall id :: id in before ==>
                  polygons.shown[id] == if id in order[..k] && field in before[id] then before[id][field := 0.0] else before[id]
      invariant polygons.stored == old(polygons.stored) && polygons.selection == old(polygons.selection)
      invariant polygons.commits == old(polygons.commits)
    {
      var ok := polygons.ChangeAttributeValue(order[k], field, 0.0);
      assert forall x :: x in order[..k + 1] <==> x in order[..k] || x == order[k];
      k := k + 1;
    }
    assert order[..k] == order;
    ghost var expected := Zeroed(before, field, polygons.ids);
    forall id | id in expected ensures polygons.shown[id] == expected[id] {
      assert id in polygons.ids ==> id in order;
    }
  }
}
