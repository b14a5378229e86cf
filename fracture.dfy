/** The per-manifold fracture decision of `updatePhysics`: which of the
    two sides of one contact manifold are broken. */
module Fracture {
  import opened Types
  import opened Contacts

  /** The impulse a contact must strictly exceed to break an object. */
  const FRACTURE_IMPULSE: real := 250.0

  /** One side of a manifold as the scan sees it: the object its body's
      user pointer leads to (or none), and that object's `breakable` and
      `collided` flags, read as false when there is no object. */
  datatype SideView = SideView(owner: Option<ObjId>, breakable: bool, collided: bool)

  predicate WellFormedView(v: SideView) {
    v.owner.None? ==> !v.breakable && !v.collided
  }

  /** The three early `continue`s taken before the contact points are read. */
  predicate Skipped(v0: SideView, v1: SideView) {
    (v0.owner.None? && v1.owner.None?)
    || (!v0.breakable && !v1.breakable)
    || (v0.collided && v1.collided)
  }

  predicate Fires(v: SideView, verdict: Verdict) {
    v.breakable && !v.collided && verdict.maxImpulse > FRACTURE_IMPULSE
  }

  /** Whether side 0 and side 1 are fractured, in that order. Both sides
      share the one verdict, hence the one impact point and normal. */
  function Outcome(v0: SideView, v1: SideView, cs: seq<ContactPoint>): (r: (bool, bool))
    ensures Skipped(v0, v1) || !Examine(cs).contact ==> r == (false, false)
    ensures r.0 ==> v0.breakable && !v0.collided && Examine(cs).maxImpulse > FRACTURE_IMPULSE
    ensures r.1 ==> v1.breakable && !v1.collided && Examine(cs).maxImpulse > FRACTURE_IMPULSE
  {
    if Skipped(v0, v1) then (false, false)
    else
      var verdict := Examine(cs);
      if !verdict.contact then (false, false)
      else (Fires(v0, verdict), Fires(v1, verdict))
  }

  /** A side breaks exactly when it holds a breakable object not yet
      collided in this step and the manifold's first penetrating point
      carries an impulse above the threshold; the skip tests decide
      nothing of their own. */
  lemma FractureCondition(v0: SideView, v1: SideView, cs: seq<ContactPoint>)
    requires WellFormedView(v0) && WellFormedView(v1)
    ensures Outcome(v0, v1, cs).0 <==>
      v0.owner.Some? && v0.breakable && !v0.collided
      && exists k :: FirstPenetratingAt(cs, k) && cs[k].appliedImpulse > FRACTURE_IMPULSE
    ensures Outcome(v0, v1, cs).1 <==>
      v1.owner.Some? && v1.breakable && !v1.collided
      && exists k :: FirstPenetratingAt(cs, k) && cs[k].appliedImpulse > FRACTURE_IMPULSE
  {
    ExceedsIffFirstExceeds(cs, FRACTURE_IMPULSE);
  }

  /** Neither side breaks when no side is breakable, when both sides are
      already collided, or when no side holds an object. */
  lemma SkippedManifoldsNeverFracture(v0: SideView, v1: SideView, cs: seq<ContactPoint>)
    requires WellFormedView(v0) && WellFormedView(v1)
    requires (v0.owner.None? && v1.owner.None?)
             || (!v0.breakable && !v1.breakable)
             || (v0.collided && v1.collided)
    ensures Outcome(v0, v1, cs) == (false, false)
  {
  }

  /** The threshold is strict: a first penetrating impulse of exactly 250
      breaks nothing, of any amount above 250 breaks every eligible side. */
  lemma ThresholdIsStrict(v0: SideView, v1: SideView, cs: seq<ContactPoint>, k: nat)
    requires WellFormedView(v0) && WellFormedView(v1)
    requires FirstPenetratingAt(cs, k)
    ensures cs[k].appliedImpulse == FRACTURE_IMPULSE ==> Outcome(v0, v1, cs) == (false, false)
    ensures cs[k].appliedImpulse > FRACTURE_IMPULSE ==>
      Outcome(v0, v1, cs) == (v0.breakable && !v0.collided, v1.breakable && !v1.collided)
  {
    FirstPenetratingUnique(cs, k);
  }

  /** A manifold with only resting contact points never breaks anything. */
  lemma RestingContactNeverFractures(v0: SideView, v1: SideView, cs: seq<ContactPoint>)
    requires forall j :: 0 <= j < |cs| ==> !Penetrating(cs[j])
    ensures Outcome(v0, v1, cs) == (false, false)
  {
    RestingContact(cs);
  }
}
