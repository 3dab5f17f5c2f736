/**
 * Row selection of the food table (src/hooks/useTableSelection.ts): a set of
 * selected ids, with select-all over the current items, per-row toggles and
 * a reset. `isAllSelected` compares the size of the set with the number of
 * items, so it depends on the ids being distinct.
 */
module TableSelection {
  /** `new Set(ids)`: the ids, without repetitions. */
  function IdSet(ids: seq<string>): (r: set<string>)
    ensures forall x :: x in r <==> x in ids
  {
    if |ids| == 0 then {} else {ids[0]} + IdSet(ids[1..])
  }

  /** `items.map(getId)` */
  function IdsOf<T>(items: seq<T>, getId: T -> string): (ids: seq<string>)
    ensures |ids| == |items|
    ensures forall i :: 0 <= i < |items| ==> ids[i] == getId(items[i])
  {
    seq(|items|, i requires 0 <= i < |items| => getId(items[i]))
  }

  /** The selection after one row's checkbox changed: `id` in it iff checked, other ids untouched. */
  function WithItem(selected: set<string>, id: string, checked: bool): (r: set<string>)
    ensures id in r <==> checked
    ensures forall x :: x != id ==> (x in r <==> x in selected)
  {
    if checked then selected + {id} else selected - {id}
  }

  /** Checking or unchecking the same row twice has the effect of doing it once. */
  lemma WithItemIdempotent(selected: set<string>, id: string, checked: bool)
    ensures WithItem(WithItem(selected, id, checked), id, checked) == WithItem(selected, id, checked)
  {
  }

  predicate Distinct(ids: seq<string>) {
    forall i, j :: 0 <= i < j < |ids| ==> ids[i] != ids[j]
  }

  /** A sequence is duplicate-free iff its tail is and its head does not recur. */
  lemma DistinctCons(ids: seq<string>)
    requires |ids| > 0
    ensures Distinct(ids) <==> Distinct(ids[1..]) && ids[0] !in ids[1..]
  {
    var rest := ids[1..];
    if Distinct(rest) && ids[0] !in rest {
      forall i, j | 0 <= i < j < |ids| ensures ids[i] != ids[j] {
        assert ids[j] == rest[j - 1];
        if i > 0 {
          assert ids[i] == rest[i - 1];
        }
      }
    }
    if Distinct(ids) {
      forall i, j | 0 <= i < j < |rest| ensures rest[i] != rest[j] {
        assert rest[i] == ids[i + 1] && rest[j] == ids[j + 1];
      }
    }
  }

  /** The set built from the ids has exactly as many elements as there are ids iff no id repeats. */
  lemma {:induction false} IdSetSize(ids: seq<string>)
    ensures |IdSet(ids)| <= |ids|
    ensures |IdSet(ids)| == |ids| <==> Distinct(ids)
  {
    if |ids| > 0 {
      var rest := ids[1..];
      IdSetSize(rest);
      DistinctCons(ids);
      if ids[0] in rest {
        assert IdSet(ids) == IdSet(rest);
      } else {
        assert ids[0] !in IdSet(rest);
        assert |IdSet(ids)| == 1 + |IdSet(rest)|;
      }
    }
  }

  /** The state of one `useTableSelection` hook. */
  class TableSelectionHook {
    var selectedIds: set<string>

    /** Nothing is selected at first. */
    constructor ()
      ensures selectedIds == {}
    {
      selectedIds := {};
    }

    /** `hasSelection` */
    predicate HasSelection()
      reads this
    {
      |selectedIds| > 0
    }

    /** `isAllSelected`, for a table of `itemCount` rows. */
    predicate IsAllSelected(itemCount: nat)
      reads this
    {
      |selectedIds| > 0 && |selectedIds| == itemCount
    }

    /** `handleSelectAll`: checked selects the ids of all items, unchecked selects none. */
    method HandleSelectAll<T>(items: seq<T>, getId: T -> string, checked: bool)
      modifies this
      ensures checked ==> selectedIds == IdSet(IdsOf(items, getId))
      ensures checked ==> forall x :: x in selectedIds <==> exists i :: 0 <= i < |items| && getId(items[i]) == x
      ensures !checked ==> selectedIds == {}
    {
      if checked {
        var ids := IdsOf(items, getId);
        selectedIds := IdSet(ids);
        forall x | x in selectedIds
          ensures exists i :: 0 <= i < |items| && getId(items[i]) == x
        {
          var i :| 0 <= i < |ids| && ids[i] == x;
          assert getId(items[i]) == x;
        }
      } else {
        selectedIds := {};
      }
    }

    /** `handleSelectItem`: a copy of the set with `id` added (checked) or removed (unchecked). */
    method HandleSelectItem(id: string, checked: bool)
      modifies this
      ensures selectedIds == WithItem(old(selectedIds), id, checked)
    {
      var next := selectedIds;
      if checked {
        next := next + {id};
      } else {
        next := next - {id};
      }
      selectedIds := next;
    }

    /** `clearSelection` */
    method ClearSelection()
      modifies this
      ensures selectedIds == {} && !HasSelection()
    {
      selectedIds := {};
    }
  }

  /**
   * After select-all the table reports everything selected exactly when there
   * is at least one item and no two items share an id.
   */
  lemma AllSelectedAfterSelectAll<T>(items: seq<T>, getId: T -> string)
    ensures var ids := IdsOf(items, getId);
      (|IdSet(ids)| > 0 && |IdSet(ids)| == |items|) <==> |items| > 0 && Distinct(ids)
  {
    var ids := IdsOf(items, getId);
    IdSetSize(ids);
    if |items| > 0 {
      assert ids[0] in IdSet(ids);
    }
  }
}
