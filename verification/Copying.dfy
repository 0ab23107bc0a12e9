/** Copying attached documents, and why later copies do not disturb earlier ones. */
module Copying {
  import opened Types
  import opened State
  import opened Invariant

  /** The loop that gives every document of one resource a copy on another. */
  method CopyDocs(src: map<Id, Doc>, dst: map<Id, Doc>, from: Ref, to: Ref, next: Id)
    returns (dst': map<Id, Doc>, next': Id)
    requires Issued(dst, next) && forall k :: k in dst ==> dst[k].owner != to
    ensures next <= next' && Grows(dst, dst', next, next')
    ensures forall k :: k in dst' && k !in dst ==> dst'[k].owner == to
    ensures CopiedTo(src, dst', from, to)
  {
    var found := set o | o in src && src[o].owner == from;
    var order := Listing(found);
    dst', next' := dst, next;
    for i := 0 to |order|
      invariant next <= next' && Grows(dst, dst', next, next')
      invariant forall k :: k in dst' && k !in dst ==> IsDocCopy(src, dst', from, to, k)
      invariant forall k :: k in dst' && k !in dst ==> dst'[k].owner == to && dst'[k].origin.value in order[..i]
      invariant forall o :: o in order[..i] ==> exists k :: IsDocCopyOf(dst', to, k, o)
      invariant forall o, k, l :: IsDocCopyOf(dst', to, k, o) && IsDocCopyOf(dst', to, l, o) ==> k == l
    {
      var o := order[i];
      assert o in found;
      assert o !in order[..i];
      ghost var before := dst';
      dst' := dst'[next' := src[o].(owner := to, origin := Some(o))];
      next' := next' + 1;
      assert order[..i + 1] == order[..i] + [o];
      assert IsDocCopyOf(dst', to, next' - 1, o);
      forall p | p in order[..i] ensures exists k :: IsDocCopyOf(dst', to, k, p) {
        var k :| IsDocCopyOf(before, to, k, p);
        assert IsDocCopyOf(dst', to, k, p);
      }
      forall p, k, l | IsDocCopyOf(dst', to, k, p) && IsDocCopyOf(dst', to, l, p) ensures k == l {
        assert k != next' - 1 && l != next' - 1 ==> IsDocCopyOf(before, to, k, p) && IsDocCopyOf(before, to, l, p);
      }
    }
    assert order[..|order|] == order;
    forall o | o in src && src[o].owner == from ensures exists k :: IsDocCopyOf(dst', to, k, o) {
      assert o in found && o in order[..|order|];
    }
  }

  /** The frozen documents carry issued ids and name issued owners. */
  ghost predicate DocsIssued(w: World) {
    && Issued(w.frozenMetadata, w.next) && OwnersIssued(w.frozenMetadata, w.next)
    && Issued(w.frozenVisConfigs, w.next) && OwnersIssued(w.frozenVisConfigs, w.next)
    && Issued(w.frozenVisData, w.next) && OwnersIssued(w.frozenVisData, w.next)
  }

  /** From `w` to `w'` only documents below `to` were added. */
  ghost predicate DocsGrow(w: World, w': World, to: Ref) {
    && w.next <= w'.next
    && Grows(w.frozenMetadata, w'.frozenMetadata, w.next, w'.next)
    && (forall m :: m in w'.frozenMetadata && m !in w.frozenMetadata ==> w'.frozenMetadata[m].owner == to)
    && Grows(w.frozenVisConfigs, w'.frozenVisConfigs, w.next, w'.next)
    && (forall c :: c in w'.frozenVisConfigs && c !in w.frozenVisConfigs ==> w'.frozenVisConfigs[c].owner == to)
    && Grows(w.frozenVisData, w'.frozenVisData, w.next, w'.next)
    && (forall v :: v in w'.frozenVisData && v !in w.frozenVisData ==> NewConfig(w, w', w'.frozenVisData[v].owner))
  }

  lemma CopiedToStable(src: map<Id, Doc>, dst: map<Id, Doc>, dst': map<Id, Doc>, from: Ref, to: Ref)
    requires CopiedTo(src, dst, from, to)
    requires forall k :: k in dst ==> k in dst' && dst'[k] == dst[k]
    requires forall k :: k in dst' && k !in dst ==> dst'[k].owner != to
    ensures CopiedTo(src, dst', from, to)
  {
    forall k | k in dst' && dst'[k].owner == to ensures IsDocCopy(src, dst', from, to, k) {
      assert k in dst && IsDocCopy(src, dst, from, to, k);
    }
    forall o | o in src && src[o].owner == from ensures exists k :: IsDocCopyOf(dst', to, k, o) {
      var k :| IsDocCopyOf(dst, to, k, o);
      assert IsDocCopyOf(dst', to, k, o);
    }
    forall o, k, l | IsDocCopyOf(dst', to, k, o) && IsDocCopyOf(dst', to, l, o) ensures k == l {
      assert IsDocCopyOf(dst, to, k, o) && IsDocCopyOf(dst, to, l, o);
    }
  }

  /** What was copied to `to` stays copied while documents of another owner are added. */
  lemma ResourceCopiedStable(w: World, w1: World, w2: World, from: Ref, to: Ref, other: Ref)
    requires ResourceCopied(w, w1, from, to) && DocsIssued(w1) && DocsGrow(w1, w2, other) && other != to
    ensures ResourceCopied(w, w2, from, to)
  {
    CopiedToStable(w.metadata, w1.frozenMetadata, w2.frozenMetadata, from, to);
    CopiedToStable(w.visConfigs, w1.frozenVisConfigs, w2.frozenVisConfigs, from, to);
    forall c | c in w2.frozenVisConfigs && w2.frozenVisConfigs[c].owner == to
      ensures w2.frozenVisConfigs[c].origin.Some?
      ensures CopiedTo(w.visData, w2.frozenVisData, Ref(VisConfigs, w2.frozenVisConfigs[c].origin.value), Ref(VisConfigs, c))
    {
      assert c in w1.frozenVisConfigs;
      CopiedToStable(w.visData, w1.frozenVisData, w2.frozenVisData,
                     Ref(VisConfigs, w1.frozenVisConfigs[c].origin.value), Ref(VisConfigs, c));
    }
  }
}
