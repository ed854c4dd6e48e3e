// A bucket nobody edits is a frozen layer: its slots in order, empty ones skipped.
module ViewBuckets {
  import opened Seqs
  import opened ClassModel
  import opened ArtifactReader
  import opened BucketSlots
  import opened ViewSpec

  function Frozen(slots: Slots): FrozenBucket {
    if slots == [] then []
    else Frozen(Front(slots)) + (if Last(slots).Some? then [Last(slots).value.Meta()] else [])
  }

  ghost predicate DistinctSlots(slots: Slots) {
    forall i, j :: 0 <= i < j < |slots| && slots[i].Some? && slots[j].Some? ==>
      slots[i].value.InternalName() != slots[j].value.InternalName()
  }

  ghost predicate Holds(slots: Slots, id: nat, c: ClassMetadata) {
    Live(slots, id) && slots[id].value.Meta() == c
  }

  lemma {:induction false} FrozenMembers(slots: Slots, c: ClassMetadata)
    ensures c in Frozen(slots) <==> exists id :: Holds(slots, id, c)
  {
    if slots != [] {
      FrozenMembers(Front(slots), c);
      forall id: nat | id < |slots| ensures Holds(slots, id, c) <==>
        Holds(Front(slots), id, c) || (id == |slots| - 1 && Last(slots).Some? && Last(slots).value.Meta() == c)
      {
      }
      if c in Frozen(Front(slots)) {
        var id :| Holds(Front(slots), id, c);
        assert Holds(slots, id, c);
      } else if c in Frozen(slots) {
        assert Holds(slots, |slots| - 1, c);
      }
    }
  }

  lemma {:induction false} FrozenDistinct(slots: Slots)
    requires DistinctSlots(slots)
    ensures forall i, j :: 0 <= i < j < |Frozen(slots)| ==> Frozen(slots)[i].internalName != Frozen(slots)[j].internalName
  {
    if slots != [] {
      FrozenDistinct(Front(slots));
      if Last(slots).Some? {
        forall i | 0 <= i < |Frozen(Front(slots))|
          ensures Frozen(Front(slots))[i].internalName != Last(slots).value.InternalName()
        {
          FrozenMembers(Front(slots), Frozen(Front(slots))[i]);
          var id :| Holds(Front(slots), id, Frozen(Front(slots))[i]);
        }
      }
    }
  }

  // The layer of a well-formed bucket repeats no name and answers like the bucket's class map.
  lemma {:induction false} FrozenBucketAnswers(byInternal: map<string, nat>, slots: Slots, name: string, scope: Scope)
    requires NamesExact(byInternal, slots)
    ensures DistinctLayer(scope, OverlayLayer(Frozen(slots)))
    ensures BucketClass(Frozen(slots), name)
      == if name in byInternal then Some(ClassMap(byInternal, slots)[name]) else None
  {
    FrozenDistinct(slots);
    var bucket := Frozen(slots);
    FirstWithIsFirst(ViewSpec.InternalName, bucket, name);
    var i := FirstWith(ViewSpec.InternalName, bucket, name);
    if i.Some? {
      FrozenMembers(slots, bucket[i.value]);
      var at :| Holds(slots, at, bucket[i.value]);
    } else if name in byInternal {
      var c := ClassMap(byInternal, slots)[name];
      assert Holds(slots, byInternal[name], c);
      FrozenMembers(slots, c);
    }
  }

  // The layer lists the filled slots of the bucket in slot order.
  lemma {:induction false} FrozenInOrder(slots: Slots) returns (ids: seq<nat>)
    ensures |ids| == |Frozen(slots)|
    ensures forall i :: 0 <= i < |ids| ==> Live(slots, ids[i]) && Frozen(slots)[i] == slots[ids[i]].value.Meta()
    ensures forall i, j :: 0 <= i < j < |ids| ==> ids[i] < ids[j]
    ensures forall id: nat :: Live(slots, id) ==> id in ids
  {
    ids := [];
    if slots != [] {
      ids := FrozenInOrder(Front(slots));
      if Last(slots).Some? {
        ids := ids + [|slots| - 1];
      }
      forall id: nat | Live(slots, id) ensures id in ids {
        assert id < |slots| - 1 ==> Live(Front(slots), id);
      }
    }
  }
}
