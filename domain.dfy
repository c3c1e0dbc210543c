/**
 * The records the scheduler works on: staff resources and appointments, the
 * per-resource filter `appointments.filter(a => a.resourceId === id)` and the
 * `some` scan with the three-case conflict rule that both the slot finder and
 * the day view run over it.
 */
module Domain {
  import opened Wrappers
  import opened Clock
  import opened Overlap
  import opened Sequences

  datatype Resource = Resource(id: string, name: string, specialty: string, color: string)

  /**
   * An appointment or an unavailable block.  `kind` is the record's `type`
   * field ("appointment" or "unavailable"); the optional fields are absent
   * from some records.
   */
  datatype Appointment = Appointment(
    id: string,
    resourceId: string,
    title: string,
    start: Instant,
    end: Instant,
    kind: string,
    clientName: Option<string>,
    clientId: Option<string>,
    details: Option<string>,
    status: Option<string>)

  /** The appointments of one resource, in their original order. */
  function ForResource(appointments: seq<Appointment>, resourceId: string): (r: seq<Appointment>)
    ensures |r| <= |appointments|
    decreases |appointments|
  {
    if appointments == [] then []
    else
      (if appointments[0].resourceId == resourceId then [appointments[0]] else [])
      + ForResource(appointments[1..], resourceId)
  }

  /** The filter keeps exactly the appointments of the resource. */
  lemma {:induction false} ForResourceMembers(appointments: seq<Appointment>, resourceId: string)
    ensures forall a :: a in ForResource(appointments, resourceId) <==> a in appointments && a.resourceId == resourceId
    decreases |appointments|
  {
    if appointments != [] {
      ForResourceMembers(appointments[1..], resourceId);
      assert appointments == [appointments[0]] + appointments[1..];
    }
  }

  /** Filtering keeps the order: it distributes over concatenation. */
  lemma {:induction false} ForResourceAppend(a: seq<Appointment>, b: seq<Appointment>, resourceId: string)
    ensures ForResource(a + b, resourceId) == ForResource(a, resourceId) + ForResource(b, resourceId)
    decreases |a|
  {
    if a == [] {
      assert a + b == b;
    } else {
      assert (a + b)[0] == a[0] && (a + b)[1..] == a[1..] + b;
      ForResourceAppend(a[1..], b, resourceId);
      var head := if a[0].resourceId == resourceId then [a[0]] else [];
      AppendAssociative(head, ForResource(a[1..], resourceId), ForResource(b, resourceId));
    }
  }

  /** `appts.some(a => ThreeCaseOverlap(start, end, a.start, a.end))`. */
  function AnyOverlap(appts: seq<Appointment>, start: Instant, end: Instant): bool
    decreases |appts|
  {
    if appts == [] then false
    else ThreeCaseOverlap(start, end, appts[0].start, appts[0].end) || AnyOverlap(appts[1..], start, end)
  }

  /** The scan answers true exactly when some appointment conflicts. */
  lemma {:induction false} AnyOverlapExists(appts: seq<Appointment>, start: Instant, end: Instant)
    ensures AnyOverlap(appts, start, end) <==> exists a :: a in appts && ThreeCaseOverlap(start, end, a.start, a.end)
    decreases |appts|
  {
    if appts != [] {
      AnyOverlapExists(appts[1..], start, end);
      assert appts == [appts[0]] + appts[1..];
    }
  }
}
