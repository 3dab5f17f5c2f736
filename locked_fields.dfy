/**
 * The locked-field set of the edit form (src/hooks/useLockedFields.ts): a field
 * is locked or unlocked by toggling it; the hook replaces its set with an
 * updated copy.
 */
module LockedFields {
  /** The set after toggling `field`: `field` flips, every other field keeps its membership. */
  function Toggled(locked: set<string>, field: string): (r: set<string>)
    ensures field in r <==> field !in locked
    ensures forall g :: g != field ==> (g in r <==> g in locked)
  {
    if field in locked then locked - {field} else locked + {field}
  }

  /** Toggling the same field twice gives the set back. */
  lemma ToggleTwice(locked: set<string>, field: string)
    ensures Toggled(Toggled(locked, field), field) == locked
  {
  }

  /** Toggling two different fields gives the same set in either order. */
  lemma ToggleCommutes(locked: set<string>, f: string, g: string)
    ensures Toggled(Toggled(locked, f), g) == Toggled(Toggled(locked, g), f)
  {
  }

  /** The state of one `useLockedFields` hook. */
  class LockedFieldsHook {
    var lockedFields: set<string>

    /** No field is locked at first. */
    constructor ()
      ensures lockedFields == {}
      ensures forall f :: !IsLocked(f)
    {
      lockedFields := {};
    }

    /** `isLocked`: the field is in the set. */
    predicate IsLocked(field: string)
      reads this
    {
      field in lockedFields
    }

    /**
     * `toggleLock`: a copy of the set with `field` removed when present and
     * added when absent becomes the new set.
     */
    method ToggleLock(field: string)
      modifies this
      ensures lockedFields == Toggled(old(lockedFields), field)
      ensures IsLocked(field) <==> !old(IsLocked(field))
    {
      var newSet := lockedFields;
      if field in newSet {
        newSet := newSet - {field};
      } else {
        newSet := newSet + {field};
      }
      lockedFields := newSet;
    }
  }
}
