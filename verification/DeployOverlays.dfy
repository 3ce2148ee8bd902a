/** Deployment overlays: a recursive merge of nested mappings and its algebra. */
module DeployOverlays {

  /** A YAML value: a mapping, or anything else. */
  datatype Value = Scalar(text: string) | Mapping(items: map<string, Value>)

  type Tree = map<string, Value>

  /** What one key of the merged mapping holds. */
  function MergeValue(current: Value, value: Value): Value
    decreases value, 1
  {
    if current.Mapping? && value.Mapping? then Mapping(Merge(current.items, value.items)) else value
  }

  function Merge(base: Tree, overlay: Tree): Tree
    decreases Mapping(overlay), 0
  {
    map k | k in base.Keys + overlay.Keys ::
      if k !in overlay then base[k]
      else if k in base then MergeValue(base[k], overlay[k])
      else overlay[k]
  }

  /** The loop of `deep_merge`; it recurses into smaller overlays only. */
  method DeepMerge(base: Tree, overlay: Tree) returns (merged: Tree)
    ensures merged == Merge(base, overlay)
    decreases Mapping(overlay)
  {
    merged := base;
    var todo := overlay.Keys;
    while todo != {}
      invariant todo <= overlay.Keys
      invariant merged.Keys == base.Keys + (overlay.Keys - todo)
      invariant forall k | k in merged :: merged[k] ==
                  if k in overlay.Keys - todo then Merge(base, overlay)[k] else base[k]
      decreases todo
    {
      var key :| key in todo;
      var value := overlay[key];
      if key in merged && merged[key].Mapping? && value.Mapping? {
        assert value.items == overlay[key].items;
        var inner := DeepMerge(merged[key].items, value.items);
        merged := merged[key := Mapping(inner)];
      } else {
        merged := merged[key := value];
      }
      todo := todo - {key};
    }
  }

  // ---------- identity and idempotence ----------

  lemma EmptyIsIdentity(tree: Tree)
    ensures Merge(map[], tree) == tree && Merge(tree, map[]) == tree
  {
  }

  lemma {:induction false} Idempotent(tree: Tree)
    ensures Merge(tree, tree) == tree
    decreases Mapping(tree)
  {
    forall k | k in tree ensures MergeValue(tree[k], tree[k]) == tree[k] {
      if tree[k].Mapping? {
        Idempotent(tree[k].items);
      }
    }
  }

  // ---------- associativity ----------

  /** Merging under `overlay` leaves no trace of `base`: all its paths are overwritten. */
  predicate Covered(base: Tree, overlay: Tree)
    decreases Mapping(overlay)
  {
    forall k | k in base ::
      k in overlay && (base[k].Mapping? && overlay[k].Mapping? ==> Covered(base[k].items, overlay[k].items))
  }

  lemma {:induction false} CoveredExact(base: Tree, overlay: Tree)
    ensures Covered(base, overlay) <==> Merge(base, overlay) == overlay
    decreases Mapping(overlay)
  {
    forall k | k in base && k in overlay && base[k].Mapping? && overlay[k].Mapping?
      ensures Covered(base[k].items, overlay[k].items) <==> MergeValue(base[k], overlay[k]) == overlay[k]
    {
      CoveredExact(base[k].items, overlay[k].items);
    }
    var merged := Merge(base, overlay);
    if Covered(base, overlay) {
      assert merged.Keys == overlay.Keys;
      forall k | k in overlay ensures merged[k] == overlay[k] {
        if k in base {
          assert merged[k] == MergeValue(base[k], overlay[k]);
        }
      }
    } else {
      var k :| k in base && !(k in overlay && (base[k].Mapping? && overlay[k].Mapping? ==> Covered(base[k].items, overlay[k].items)));
      if k in overlay {
        assert merged[k] == MergeValue(base[k], overlay[k]);
      } else {
        assert k in merged;
      }
    }
  }

  /**
   No key path holds mappings in `a` and `c` but something else in `b`, unless `c`
   overwrites all of `a` there anyway.
   */
  predicate Compatible(a: Tree, b: Tree, c: Tree)
    decreases Mapping(c)
  {
    forall k | k in a && k in b && k in c && a[k].Mapping? && c[k].Mapping? ::
      if b[k].Mapping? then Compatible(a[k].items, b[k].items, c[k].items)
      else Covered(a[k].items, c[k].items)
  }

  /** Three overlays associate exactly when they are compatible. */
  lemma {:induction false} AssociativeExact(a: Tree, b: Tree, c: Tree)
    ensures Merge(Merge(a, b), c) == Merge(a, Merge(b, c)) <==> Compatible(a, b, c)
    decreases Mapping(c)
  {
    var left, right := Merge(Merge(a, b), c), Merge(a, Merge(b, c));
    assert left.Keys == right.Keys;
    forall k | k in left
      ensures left[k] == right[k] <==>
              (k in a && k in b && k in c && a[k].Mapping? && c[k].Mapping? ==>
                 if b[k].Mapping? then Compatible(a[k].items, b[k].items, c[k].items)
                 else Covered(a[k].items, c[k].items))
    {
      AssociativeAt(a, b, c, k);
    }
    if Compatible(a, b, c) {
      assert left == right;
    }
  }

  lemma AssociativeAt(a: Tree, b: Tree, c: Tree, k: string)
    requires k in a.Keys + b.Keys + c.Keys
    ensures Merge(Merge(a, b), c)[k] == Merge(a, Merge(b, c))[k] <==>
            (k in a && k in b && k in c && a[k].Mapping? && c[k].Mapping? ==>
               if b[k].Mapping? then Compatible(a[k].items, b[k].items, c[k].items)
               else Covered(a[k].items, c[k].items))
    decreases Mapping(c), 0
  {
    if k in a && k in b && k in c && a[k].Mapping? && c[k].Mapping? {
      if b[k].Mapping? {
        AssociativeExact(a[k].items, b[k].items, c[k].items);
      } else {
        CoveredExact(a[k].items, c[k].items);
      }
    }
  }

  /** In particular where `b` is a mapping, or absent, wherever `a` and `c` both are mappings. */
  predicate NoBlockedPath(a: Tree, b: Tree, c: Tree)
    decreases Mapping(c)
  {
    forall k | k in a && k in b && k in c && a[k].Mapping? && c[k].Mapping? ::
      b[k].Mapping? && NoBlockedPath(a[k].items, b[k].items, c[k].items)
  }

  lemma {:induction false} UnblockedAssociates(a: Tree, b: Tree, c: Tree)
    requires NoBlockedPath(a, b, c)
    ensures Compatible(a, b, c)
    ensures Merge(Merge(a, b), c) == Merge(a, Merge(b, c))
    decreases Mapping(c)
  {
    forall k | k in a && k in b && k in c && a[k].Mapping? && c[k].Mapping?
      ensures Compatible(a[k].items, b[k].items, c[k].items)
    {
      UnblockedAssociates(a[k].items, b[k].items, c[k].items);
    }
    AssociativeExact(a, b, c);
  }

  /** A scalar in the middle overlay breaks associativity. */
  lemma NotAssociative(x: string, y: string, s: string)
    requires x != y
    ensures var a: Tree := map["k" := Mapping(map[x := Scalar(s)])];
            var b: Tree := map["k" := Scalar(s)];
            var c: Tree := map["k" := Mapping(map[y := Scalar(s)])];
            Merge(Merge(a, b), c) != Merge(a, Merge(b, c))
  {
    var a: Tree := map["k" := Mapping(map[x := Scalar(s)])];
    var b: Tree := map["k" := Scalar(s)];
    var c: Tree := map["k" := Mapping(map[y := Scalar(s)])];
    assert !Covered(a["k"].items, c["k"].items) by {
      assert x in a["k"].items && x !in c["k"].items;
    }
    assert !Compatible(a, b, c) by {
      assert "k" in a;
    }
    AssociativeExact(a, b, c);
  }
}
