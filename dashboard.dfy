/** The dashboard page: the signed-in user's enrollments, and the bootcamps
    of the catalogue not enrolled in, in catalogue order. */
module Dashboard {
  import opened Base
  import opened Seqs
  import opened Store

  datatype Page = RedirectToLogin | Render(enrolled: seq<Enrollment>, available: seq<Bootcamp>)

  function EnrolledIds(es: seq<Enrollment>, userId: string): set<string> {
    set e | e in es && e.userId == userId :: e.bootcampId
  }

  function Available(catalogue: seq<Bootcamp>, es: seq<Enrollment>, userId: string): seq<Bootcamp> {
    Filter(catalogue, (b: Bootcamp) => b.id !in EnrolledIds(es, userId))
  }

  /** The page, given the session's user id (`None` without a session), the
      enrollments and the catalogue, newest first. */
  function View(session: Option<string>, es: seq<Enrollment>, catalogue: seq<Bootcamp>): (p: Page)
    ensures p.RedirectToLogin? <==> session.None?
  {
    match session
    case None => RedirectToLogin
    case Some(userId) =>
      Render(Filter(es, (e: Enrollment) => e.userId == userId), Available(catalogue, es, userId))
  }

  // ---- properties of the page ----

  /** The two lists split the catalogue: a bootcamp is offered exactly when
      the user has no enrollment in it, and the enrolled list is exactly the
      user's enrollments. */
  lemma ListsPartitionCatalogue(userId: string, es: seq<Enrollment>, catalogue: seq<Bootcamp>)
    ensures var p := View(Some(userId), es, catalogue);
            && (forall i :: 0 <= i < |p.available| ==> !HasPair(es, userId, p.available[i].id))
            && (forall i :: 0 <= i < |catalogue| && !HasPair(es, userId, catalogue[i].id) ==> catalogue[i] in p.available)
            && (forall i :: 0 <= i < |p.enrolled| ==> p.enrolled[i] in es && p.enrolled[i].userId == userId)
            && (forall i :: 0 <= i < |es| && es[i].userId == userId ==> es[i] in p.enrolled)
  {
    var p := View(Some(userId), es, catalogue);
    forall i | 0 <= i < |catalogue| && !HasPair(es, userId, catalogue[i].id)
      ensures catalogue[i] in p.available
    {
      assert catalogue[i].id !in EnrolledIds(es, userId);
    }
    forall i | 0 <= i < |p.available|
      ensures !HasPair(es, userId, p.available[i].id)
    {
      assert p.available[i] in p.available;
    }
    forall i | 0 <= i < |p.enrolled|
      ensures p.enrolled[i] in es && p.enrolled[i].userId == userId
    {
      assert p.enrolled[i] in p.enrolled;
    }
  }

  /** The offered bootcamps keep the catalogue's order. */
  lemma AvailableInOrder(userId: string, es: seq<Enrollment>, catalogue: seq<Bootcamp>)
    ensures IsSubsequence(Available(catalogue, es, userId), catalogue)
  {
    FilterIsSubsequence(catalogue, (b: Bootcamp) => b.id !in EnrolledIds(es, userId));
  }

  /** Once a route commits an enrollment, its bootcamp leaves that user's
      offered list and joins the enrolled list. */
  lemma EnrollmentMovesBootcamp(userId: string, es: seq<Enrollment>, catalogue: seq<Bootcamp>, e: Enrollment)
    requires e.userId == userId
    ensures var p := View(Some(userId), es + [e], catalogue);
            (forall i :: 0 <= i < |p.available| ==> p.available[i].id != e.bootcampId) && e in p.enrolled
  {
    var es' := es + [e];
    assert es'[|es|] == e;
    ListsPartitionCatalogue(userId, es', catalogue);
  }
}
