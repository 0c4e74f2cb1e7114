/**
 * The lecture-scope picker (frontend/src/components/ScopeSelect.jsx:13-25): "All lectures"
 * flips between the whole set and an empty list, and a lecture button toggles that lecture
 * in or out of an explicit list, falling back to the whole set when the list empties.
 */
module ScopeSelect {
  import opened Keyed
  import opened Domain

  /** `xs` without any occurrence of `x`, the others in their order (`Set.delete`). */
  function Without(xs: seq<Id>, x: Id): (r: seq<Id>)
    ensures |r| <= |xs|
    ensures forall k :: k in r <==> k in xs && k != x
  {
    if xs == [] then []
    else Without(xs[..|xs| - 1], x) + (if xs[|xs| - 1] == x then [] else [xs[|xs| - 1]])
  }

  /** Removing from a list without duplicates leaves a list without duplicates. */
  lemma {:induction false} WithoutDistinct(xs: seq<Id>, x: Id)
    requires Distinct(xs)
    ensures Distinct(Without(xs, x))
  {
    if xs != [] {
      var pre, y := xs[..|xs| - 1], xs[|xs| - 1];
      assert Distinct(pre) by {
        forall i, j | 0 <= i < j < |pre| ensures pre[i] != pre[j] {
          assert pre[i] == xs[i] && pre[j] == xs[j];
        }
      }
      WithoutDistinct(pre, x);
      assert y !in pre by {
        forall i | 0 <= i < |pre| ensures pre[i] != y {
          assert pre[i] == xs[i];
        }
      }
      var w := Without(pre, x);
      if y != x {
        assert y !in w;
        forall i, j | 0 <= i < j < |w + [y]| ensures (w + [y])[i] != (w + [y])[j] {
          if j == |w| {
            assert (w + [y])[i] == w[i];
          } else {
            assert (w + [y])[i] == w[i] && (w + [y])[j] == w[j];
          }
        }
      }
    }
  }

  /** Removing twice removes no more than removing once. */
  lemma {:induction false} WithoutIdempotent(xs: seq<Id>, x: Id)
    ensures Without(Without(xs, x), x) == Without(xs, x)
  {
    if xs != [] {
      var pre, y := xs[..|xs| - 1], xs[|xs| - 1];
      WithoutIdempotent(pre, x);
      var w := Without(pre, x);
      if y != x {
        assert (w + [y])[..|w + [y]| - 1] == w;
      } else {
        assert Without(xs, x) == w + [];
        assert w + [] == w;
      }
    }
  }

  /** `toggleAll`: the whole set becomes an empty list, and any list becomes the whole set. */
  function ToggleAll(value: Scope): (r: Scope)
    ensures value.All? <==> r.Lectures?
    ensures r.Lectures? ==> r.ids == []
  {
    if value.All? then Lectures([]) else All
  }

  /**
   * `toggleOne(lid)`: from the whole set, just `lid`; on a list, the distinct ids in first
   * occurrence order (`new Set(value)`), with `lid` removed when present and appended
   * otherwise; an empty result is the whole set.
   */
  function ToggleOne(value: Scope, lid: Id): (r: Scope)
    ensures value.All? ==> r == Lectures([lid])
  {
    if value.All? then Lectures([lid])
    else
      var uniq := FirstOccurrences(value.ids);
      var arr := if lid in uniq then Without(uniq, lid) else uniq + [lid];
      if arr == [] then All else Lectures(arr)
  }

  /** From a list, `lid` ends up in the result exactly when it was not in the list, and every other id stays as it was. */
  lemma ToggleOneMembers(value: Scope, lid: Id)
    requires value.Lectures?
    ensures var r := ToggleOne(value, lid);
      r.Lectures? ==> forall k :: k in r.ids <==> (if k == lid then lid !in value.ids else k in value.ids)
  {
    FirstOccurrencesMembers(value.ids);
  }

  /** The result is the whole set exactly when the list held `lid` and nothing else. */
  lemma ToggleOneToAll(value: Scope, lid: Id)
    requires value.Lectures?
    ensures ToggleOne(value, lid) == All <==> lid in value.ids && forall k :: k in value.ids ==> k == lid
  {
    FirstOccurrencesMembers(value.ids);
    var uniq := FirstOccurrences(value.ids);
    if lid in uniq && forall k :: k in value.ids ==> k == lid {
      var w := Without(uniq, lid);
      if w != [] {
        assert w[0] in w;
      }
    }
  }

  /** The result list never holds an id twice and is never empty. */
  lemma ToggleOneShape(value: Scope, lid: Id)
    ensures var r := ToggleOne(value, lid); r.Lectures? ==> r.ids != [] && Distinct(r.ids)
  {
    if value.Lectures? {
      var uniq := FirstOccurrences(value.ids);
      FirstOccurrencesDistinct(value.ids);
      if lid in uniq {
        WithoutDistinct(uniq, lid);
      } else {
        var a := uniq + [lid];
        forall i, j | 0 <= i < j < |a| ensures a[i] != a[j] {
          if j == |uniq| {
            assert a[i] == uniq[i];
          } else {
            assert a[i] == uniq[i] && a[j] == uniq[j];
          }
        }
      }
    }
  }

  /**
   * The other ids keep their relative order: leaving `lid` aside, the result lists the
   * distinct ids of the old list in the order they first occurred; an added `lid` comes last.
   */
  lemma ToggleOneOrder(value: Scope, lid: Id)
    requires value.Lectures?
    ensures var r := ToggleOne(value, lid);
      r.Lectures? ==> Without(r.ids, lid) == Without(FirstOccurrences(value.ids), lid)
    ensures var r := ToggleOne(value, lid);
      r.Lectures? && lid in r.ids ==> r.ids[|r.ids| - 1] == lid
  {
    var uniq := FirstOccurrences(value.ids);
    if lid in uniq {
      WithoutIdempotent(uniq, lid);
    } else {
      var a := uniq + [lid];
      assert a[..|a| - 1] == uniq;
    }
  }

  /** A list without duplicates is its own `new Set(value)`. */
  lemma {:induction false} FirstOccurrencesOfDistinct(xs: seq<Id>)
    requires Distinct(xs)
    ensures FirstOccurrences(xs) == xs
  {
    if xs != [] {
      var pre, y := xs[..|xs| - 1], xs[|xs| - 1];
      assert Distinct(pre) by {
        forall i, j | 0 <= i < j < |pre| ensures pre[i] != pre[j] {
          assert pre[i] == xs[i] && pre[j] == xs[j];
        }
      }
      FirstOccurrencesOfDistinct(pre);
      assert y !in pre by {
        forall i | 0 <= i < |pre| ensures pre[i] != y {
          assert pre[i] == xs[i];
        }
      }
      assert xs == pre + [y];
    }
  }

  /** On a non-empty list without duplicates that lacks `lid`, toggling `lid` twice gives the list back. */
  lemma ToggleOneTwice(value: Scope, lid: Id)
    requires value.Lectures? && Distinct(value.ids) && lid !in value.ids && value.ids != []
    ensures ToggleOne(ToggleOne(value, lid), lid) == value
  {
    var xs := value.ids;
    FirstOccurrencesOfDistinct(xs);
    var a := xs + [lid];
    assert a != [];
    ToggleOneShape(value, lid);
    FirstOccurrencesOfDistinct(a);
    assert Without(a, lid) == Without(xs, lid);
    WithoutMissing(xs, lid);
  }

  /** Removing an id that is not there changes nothing. */
  lemma {:induction false} WithoutMissing(xs: seq<Id>, x: Id)
    requires x !in xs
    ensures Without(xs, x) == xs
  {
    if xs != [] {
      var pre := xs[..|xs| - 1];
      assert x !in pre by {
        forall i | 0 <= i < |pre| ensures pre[i] != x {
          assert pre[i] == xs[i];
        }
      }
      WithoutMissing(pre, x);
      assert xs == pre + [xs[|xs| - 1]];
    }
  }
}
