/**
 Layered configuration: the deep merge of nested mappings, what stands at each path of the
 result, and the algebra of the merge.
 */
module ConfigMerge {
  datatype Scalar = Null | Text(text: string) | Number(n: int) | Items(items: seq<Value>)

  /** A YAML value. The merge treats everything that is no mapping as one indivisible leaf. */
  datatype Value = Leaf(data: Scalar) | Node(fields: map<string, Value>)

  const EMPTY := Node(map[])

  // ---------- the merge ----------

  /** `override` laid over `base`. */
  function Merge(base: Value, override: Value): Value
    decreases override
  {
    if base.Leaf? || override.Leaf? then override
    else Node(map k | k in base.fields.Keys + override.fields.Keys ::
                if k !in override.fields then base.fields[k]
                else if k in base.fields then Merge(base.fields[k], override.fields[k])
                else override.fields[k])
  }

  /** `_deep_merge_dicts`: copy the base, then go through the items of the override in any order. */
  method DeepMerge(base: Value, override: Value) returns (merged: Value)
    requires base.Node? && override.Node?
    ensures merged == Merge(base, override)
    decreases override
  {
    var fields := base.fields;
    var todo := override.fields.Keys;
    while todo != {}
      invariant todo <= override.fields.Keys
      invariant fields.Keys == base.fields.Keys + (override.fields.Keys - todo)
      invariant forall k :: k in base.fields && (k in todo || k !in override.fields) ==> fields[k] == base.fields[k]
      invariant forall k :: k in override.fields && k !in todo ==> fields[k] == Merge(base, override).fields[k]
      decreases todo
    {
      assert (exists k :: k in todo) || todo == {};
      var key :| key in todo;
      var value := override.fields[key];
      if value.Node? && key in fields && fields[key].Node? {
        var inner := DeepMerge(fields[key], value);
        fields := fields[key := inner];
      } else {
        fields := fields[key := value];
      }
      todo := todo - {key};
    }
    merged := Node(fields);
  }

  // ---------- what stands at a path ----------

  datatype Entry = Absent | Mapping | Datum(data: Scalar)

  type Path = seq<string>

  function At(v: Value, p: Path): Entry
    decreases p
  {
    if p == [] then (if v.Leaf? then Datum(v.data) else Mapping)
    else if v.Leaf? || p[0] !in v.fields then Absent
    else At(v.fields[p[0]], p[1..])
  }

  /** `v` decides what a merge over something else shows at `p`: it has an entry there, or a leaf on the way. */
  predicate Touches(v: Value, p: Path)
    decreases p
  {
    p == [] || v.Leaf? || (p[0] in v.fields && Touches(v.fields[p[0]], p[1..]))
  }

  /** A value is determined by its entries. */
  lemma {:induction false} EntriesDetermine(a: Value, b: Value)
    requires forall p :: At(a, p) == At(b, p)
    ensures a == b
    decreases a
  {
    assert At(a, []) == At(b, []);
    if a.Node? {
      forall k ensures k in a.fields <==> k in b.fields
      {
        assert [k][1..] == [];
        assert At(a, [k]) != Absent <==> k in a.fields;
        assert At(b, [k]) != Absent <==> k in b.fields;
        assert At(a, [k]) == At(b, [k]);
      }
      forall k | k in a.fields ensures a.fields[k] == b.fields[k]
      {
        forall p ensures At(a.fields[k], p) == At(b.fields[k], p)
        {
          assert ([k] + p)[1..] == p;
          assert At(a, [k] + p) == At(b, [k] + p);
        }
        EntriesDetermine(a.fields[k], b.fields[k]);
      }
    }
  }

  lemma {:induction false} UntouchedIsAbsent(v: Value, p: Path)
    ensures !Touches(v, p) ==> At(v, p) == Absent
    decreases p
  {
    if p != [] && v.Node? && p[0] in v.fields {
      UntouchedIsAbsent(v.fields[p[0]], p[1..]);
    }
  }

  /** The overlay law: at every path the override decides if it touches the path, the base otherwise. */
  lemma {:induction false} MergeOverlays(a: Value, b: Value, p: Path)
    ensures At(Merge(a, b), p) == if Touches(b, p) then At(b, p) else At(a, p)
    decreases p
  {
    if p != [] && a.Node? && b.Node? && p[0] in a.fields && p[0] in b.fields {
      MergeOverlays(a.fields[p[0]], b.fields[p[0]], p[1..]);
    } else {
      UntouchedIsAbsent(b, p);
    }
  }

  // ---------- algebra ----------

  lemma {:induction false} EmptyIsIdentity(v: Value)
    ensures Merge(EMPTY, v) == v
    ensures v.Node? ==> Merge(v, EMPTY) == v
  {
    forall p ensures At(Merge(EMPTY, v), p) == At(v, p)
    {
      MergeOverlays(EMPTY, v, p);
      UntouchedIsAbsent(v, p);
    }
    EntriesDetermine(Merge(EMPTY, v), v);
  }

  lemma MergeIsIdempotent(a: Value)
    ensures Merge(a, a) == a
  {
    forall p ensures At(Merge(a, a), p) == At(a, p)
    {
      MergeOverlays(a, a, p);
    }
    EntriesDetermine(Merge(a, a), a);
  }

  /** Applying the same override twice changes nothing more. */
  lemma OverrideTwice(a: Value, b: Value)
    ensures Merge(Merge(a, b), b) == Merge(a, b)
  {
    forall p ensures At(Merge(Merge(a, b), b), p) == At(Merge(a, b), p)
    {
      MergeOverlays(a, b, p);
      MergeOverlays(Merge(a, b), b, p);
    }
    EntriesDetermine(Merge(Merge(a, b), b), Merge(a, b));
  }

  /** Every entry of `a` lies at a path that `c` touches. */
  predicate Covers(a: Value, c: Value)
    decreases a
  {
    a.Leaf? || c.Leaf? || forall k :: k in a.fields ==> k in c.fields && Covers(a.fields[k], c.fields[k])
  }

  lemma {:induction false} CoversMeansAbsorbed(a: Value, c: Value)
    ensures Covers(a, c) <==> Merge(a, c) == c
    decreases a
  {
    if a.Node? && c.Node? {
      forall k | k in a.fields && k in c.fields
        ensures Covers(a.fields[k], c.fields[k]) <==> Merge(a, c).fields[k] == c.fields[k]
      {
        CoversMeansAbsorbed(a.fields[k], c.fields[k]);
      }
      if Covers(a, c) {
        assert Merge(a, c).fields == c.fields;
      } else {
        var k :| k in a.fields && !(k in c.fields && Covers(a.fields[k], c.fields[k]));
        assert k in Merge(a, c).fields;
      }
    }
  }

  /** Wherever a leaf of `b` separates mappings of `a` and `c`, `c` covers all that `a` has there. */
  predicate Associates(a: Value, b: Value, c: Value)
    decreases b
  {
    a.Node? && c.Node? ==>
      if b.Leaf? then Covers(a, c)
      else forall k :: k in b.fields && k in a.fields && k in c.fields ==>
             Associates(a.fields[k], b.fields[k], c.fields[k])
  }

  /** The merge is associative on exactly these triples. */
  lemma {:induction false} AssociativeIff(a: Value, b: Value, c: Value)
    ensures Merge(Merge(a, b), c) == Merge(a, Merge(b, c)) <==> Associates(a, b, c)
    decreases b
  {
    if a.Node? && c.Node? {
      if b.Leaf? {
        CoversMeansAbsorbed(a, c);
      } else {
        var left, right := Merge(Merge(a, b), c), Merge(a, Merge(b, c));
        forall k | k in a.fields && k in b.fields && k in c.fields
          ensures Associates(a.fields[k], b.fields[k], c.fields[k]) <==> left.fields[k] == right.fields[k]
        {
          AssociativeIff(a.fields[k], b.fields[k], c.fields[k]);
        }
        assert left.fields.Keys == right.fields.Keys;
        forall k | k in left.fields && !(k in a.fields && k in b.fields && k in c.fields)
          ensures left.fields[k] == right.fields[k]
        {
        }
        assert left == right <==> left.fields == right.fields;
        assert left.fields == right.fields <==> forall k :: k in left.fields ==> left.fields[k] == right.fields[k];
      }
    }
  }

  /** In particular where no path leads to mappings of `a` and `c` and a leaf of `b`. */
  lemma {:induction false} AssociativeWithoutClash(a: Value, b: Value, c: Value)
    requires forall p :: !(At(a, p) == Mapping && At(b, p).Datum? && At(c, p) == Mapping)
    ensures Merge(Merge(a, b), c) == Merge(a, Merge(b, c))
  {
    NoClashAssociates(a, b, c);
    AssociativeIff(a, b, c);
  }

  lemma {:induction false} NoClashAssociates(a: Value, b: Value, c: Value)
    requires forall p :: !(At(a, p) == Mapping && At(b, p).Datum? && At(c, p) == Mapping)
    ensures Associates(a, b, c)
    decreases b
  {
    assert !(At(a, []) == Mapping && At(b, []).Datum? && At(c, []) == Mapping);
    if a.Node? && b.Node? && c.Node? {
      forall k | k in b.fields && k in a.fields && k in c.fields
        ensures Associates(a.fields[k], b.fields[k], c.fields[k])
      {
        forall p
          ensures !(At(a.fields[k], p) == Mapping && At(b.fields[k], p).Datum? && At(c.fields[k], p) == Mapping)
        {
          assert ([k] + p)[1..] == p;
          assert !(At(a, [k] + p) == Mapping && At(b, [k] + p).Datum? && At(c, [k] + p) == Mapping);
        }
        NoClashAssociates(a.fields[k], b.fields[k], c.fields[k]);
      }
    }
  }

  // ---------- layers ----------

  /** The layers merged one after the other, the last with the highest priority. */
  function MergeAll(layers: seq<Value>): Value {
    if layers == [] then EMPTY
    else Merge(MergeAll(layers[..|layers| - 1]), layers[|layers| - 1])
  }

  lemma MergeAllThen(layers: seq<Value>, top: Value)
    ensures MergeAll(layers + [top]) == Merge(MergeAll(layers), top)
  {
    assert (layers + [top])[..|layers|] == layers;
  }

  /** Layer `i` is the highest one that touches `p`. */
  predicate Decides(layers: seq<Value>, i: int, p: Path) {
    && 0 <= i < |layers| && Touches(layers[i], p)
    && forall j :: i < j < |layers| ==> !Touches(layers[j], p)
  }

  /** Each entry of the result is the entry of the highest layer that touches its path. */
  lemma {:induction false} HighestLayerDecides(layers: seq<Value>, p: Path)
    requires p != []
    ensures forall i :: Decides(layers, i, p) ==> At(MergeAll(layers), p) == At(layers[i], p)
    ensures (forall i :: !Decides(layers, i, p)) ==> At(MergeAll(layers), p) == Absent
    ensures At(MergeAll(layers), p) != Absent ==> exists i :: Decides(layers, i, p)
    decreases |layers|
  {
    if layers != [] {
      var n := |layers| - 1;
      var lower := layers[..n];
      HighestLayerDecides(lower, p);
      MergeOverlays(MergeAll(lower), layers[n], p);
      if Touches(layers[n], p) {
        assert Decides(layers, n, p);
      } else {
        forall i ensures Decides(layers, i, p) <==> Decides(lower, i, p)
        {
        }
      }
    }
  }
}
