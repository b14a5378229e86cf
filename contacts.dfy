/** The contact-point scan that `updatePhysics` runs over one manifold:
    it stops at the first contact point with a negative distance. */
module Contacts {
  import opened Types

  datatype ContactPoint = ContactPoint(
    distance: real,
    appliedImpulse: real,
    positionWorldOnB: Vec3,
    normalWorldOnB: Vec3)

  /** What the scan leaves behind: whether a penetrating point was seen,
      the value left in `maxImpulse`, and the point whose position and
      normal were copied into the impact point and normal, if any. */
  datatype Verdict = Verdict(contact: bool, maxImpulse: real, impact: Option<ContactPoint>)

  predicate Penetrating(c: ContactPoint) {
    c.distance < 0.0
  }

  /** `k` indexes the first penetrating contact point of `cs`. */
  predicate FirstPenetratingAt(cs: seq<ContactPoint>, k: int) {
    0 <= k < |cs| && Penetrating(cs[k]) && forall j :: 0 <= j < k ==> !Penetrating(cs[j])
  }

  function FirstPenetrating(cs: seq<ContactPoint>): (r: Option<nat>)
    ensures r.Some? ==> FirstPenetratingAt(cs, r.value)
    ensures r.None? ==> forall j :: 0 <= j < |cs| ==> !Penetrating(cs[j])
  {
    if |cs| == 0 then None
    else if Penetrating(cs[0]) then Some(0)
    else match FirstPenetrating(cs[1..])
      case None => None
      case Some(k) => Some(k + 1)
  }

  /** There is at most one first penetrating point. */
  lemma FirstPenetratingUnique(cs: seq<ContactPoint>, k: int)
    requires FirstPenetratingAt(cs, k)
    ensures FirstPenetrating(cs) == Some(k)
  {
  }

  /** The outcome of the scan: only the first penetrating point is looked
      at, and its impulse replaces the initial 0 only when it is larger. */
  function Examine(cs: seq<ContactPoint>): (r: Verdict)
    ensures r.maxImpulse >= 0.0
    ensures !r.contact ==> r.maxImpulse == 0.0 && r.impact.None?
    ensures r.impact.Some? ==> r.contact && Penetrating(r.impact.value) && r.maxImpulse == r.impact.value.appliedImpulse
  {
    match FirstPenetrating(cs)
    case None => Verdict(false, 0.0, None)
    case Some(k) =>
      if cs[k].appliedImpulse > 0.0 then Verdict(true, cs[k].appliedImpulse, Some(cs[k]))
      else Verdict(true, 0.0, None)
  }

  /** The loop over the manifold's contact points, with its early exit. */
  method ScanContacts(cs: seq<ContactPoint>) returns (contact: bool, maxImpulse: real, impact: Option<ContactPoint>)
    ensures Verdict(contact, maxImpulse, impact) == Examine(cs)
  {
    contact, maxImpulse, impact := false, 0.0, None;
    var j := 0;
    while j < |cs|
      invariant 0 <= j <= |cs|
      invariant forall i :: 0 <= i < j ==> !Penetrating(cs[i])
      invariant !contact && maxImpulse == 0.0 && impact == None
    {
      if cs[j].distance < 0.0 {
        contact := true;
        var impulse := cs[j].appliedImpulse;
        if impulse > maxImpulse {
          maxImpulse := impulse;
          impact := Some(cs[j]);
        }
        FirstPenetratingUnique(cs, j);
        return;
      }
      j := j + 1;
    }
  }

  /** A manifold with no penetrating point is a resting contact: no
      contact is reported and the impulse stays 0, whatever the impulses. */
  lemma RestingContact(cs: seq<ContactPoint>)
    requires forall j :: 0 <= j < |cs| ==> !Penetrating(cs[j])
    ensures Examine(cs) == Verdict(false, 0.0, None)
  {
  }

  /** The verdict is fixed by the first penetrating point alone: the points
      before it do not penetrate and the points after it are never read. */
  lemma FirstPointDecides(before: seq<ContactPoint>, c: ContactPoint, after: seq<ContactPoint>)
    requires forall j :: 0 <= j < |before| ==> !Penetrating(before[j])
    requires Penetrating(c)
    ensures Examine(before + [c] + after) == Examine([c])
    ensures Examine([c]) == if c.appliedImpulse > 0.0 then Verdict(true, c.appliedImpulse, Some(c))
                            else Verdict(true, 0.0, None)
  {
    var cs := before + [c] + after;
    assert cs[|before|] == c;
    assert forall j :: 0 <= j < |before| ==> cs[j] == before[j];
    FirstPenetratingUnique(cs, |before|);
    FirstPenetratingUnique([c], 0);
  }

  /** The verdict's impulse exceeds a non-negative threshold exactly when the
      first penetrating point's applied impulse does. */
  lemma ExceedsIffFirstExceeds(cs: seq<ContactPoint>, threshold: real)
    requires threshold >= 0.0
    ensures (Examine(cs).contact && Examine(cs).maxImpulse > threshold)
            <==> exists k :: FirstPenetratingAt(cs, k) && cs[k].appliedImpulse > threshold
  {
    if exists k :: FirstPenetratingAt(cs, k) && cs[k].appliedImpulse > threshold {
      var k :| FirstPenetratingAt(cs, k) && cs[k].appliedImpulse > threshold;
      FirstPenetratingUnique(cs, k);
    }
  }

  /** Reference definition: the largest applied impulse over all penetrating
      points, starting from 0 (what a scan without the early exit computes). */
  function MaxPenetratingImpulse(cs: seq<ContactPoint>): real {
    if |cs| == 0 then 0.0
    else
      var rest := MaxPenetratingImpulse(cs[1..]);
      if Penetrating(cs[0]) && cs[0].appliedImpulse > rest then cs[0].appliedImpulse else rest
  }

  /** Because of the early exit the impulse used for fracture never exceeds
      the largest impulse over all penetrating points. */
  lemma {:induction false} ExamineAtMostMax(cs: seq<ContactPoint>)
    ensures Examine(cs).maxImpulse <= MaxPenetratingImpulse(cs)
  {
    if |cs| > 0 {
      MaxPenetratingNonNegative(cs[1..]);
      if !Penetrating(cs[0]) {
        ExamineAtMostMax(cs[1..]);
        ExamineSkipsResting(cs);
      }
    }
  }

  lemma {:induction false} MaxPenetratingNonNegative(cs: seq<ContactPoint>)
    ensures MaxPenetratingImpulse(cs) >= 0.0
  {
    if |cs| > 0 {
      MaxPenetratingNonNegative(cs[1..]);
    }
  }

  /** A leading point that does not penetrate does not change the verdict. */
  lemma ExamineSkipsResting(cs: seq<ContactPoint>)
    requires |cs| > 0 && !Penetrating(cs[0])
    ensures Examine(cs) == Examine(cs[1..])
  {
    match FirstPenetrating(cs[1..])
    case None =>
    case Some(k) =>
      assert cs[k + 1] == cs[1..][k];
  }

  /** A manifold whose first penetrating point carries a small impulse and
      whose second carries a large one: the scan reports the small one. */
  lemma EarlyExitMissesLargerImpulse()
    ensures var soft := ContactPoint(-0.01, 10.0, ORIGIN, ORIGIN);
            var hard := ContactPoint(-0.02, 400.0, ORIGIN, ORIGIN);
            Examine([soft, hard]).maxImpulse == 10.0
            && MaxPenetratingImpulse([soft, hard]) == 400.0
  {
    var soft := ContactPoint(-0.01, 10.0, ORIGIN, ORIGIN);
    var hard := ContactPoint(-0.02, 400.0, ORIGIN, ORIGIN);
    FirstPointDecides([], soft, [hard]);
    assert [soft, hard] == [] + [soft] + [hard];
    assert [soft, hard][1..] == [hard];
    assert [hard][1..] == [];
    assert MaxPenetratingImpulse([]) == 0.0;
    assert MaxPenetratingImpulse([hard]) == 400.0;
  }
}
