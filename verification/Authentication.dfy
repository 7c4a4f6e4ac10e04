/** The gateway's request signatures: a request id counts once within the allowed clock skew. */
module Authentication {
  import opened Faults

  const MAX_CLOCK_SKEW_SECONDS := 60

  /**
   * A request as its headers give it. `timestamp` is missing when it is not a number, `idIsUuid`
   * says whether the id can be read as a UUID, and `authentic` whether the signature is the one
   * the shared secret gives for the timestamp, the id, the method, the path and the body.
   */
  datatype Request = Request(id: string, timestamp: Option<int>, idIsUuid: bool, authentic: bool)

  /** Everything but the check that the id is new. */
  predicate Checks(r: Request, now: int) {
    && r.timestamp.Some? && r.idIsUuid
    && -MAX_CLOCK_SKEW_SECONDS <= now - r.timestamp.value <= MAX_CLOCK_SKEW_SECONDS
    && r.authentic
  }

  /** Signed, with an id that is a UUID, and arriving at most a minute from its timestamp on either side. */
  predicate Genuine(r: Request, now: int) {
    r.authentic && r.idIsUuid && r.timestamp.Some? && -60 <= now - r.timestamp.value <= 60
  }

  function Pruned(seen: map<string, int>, now: int): map<string, int> {
    map id | id in seen && now - seen[id] <= MAX_CLOCK_SKEW_SECONDS :: seen[id]
  }

  class RequestAuthenticator {
    var seen: map<string, int>

    constructor ()
      ensures seen == map[]
    {
      seen := map[];
    }

    method Valid(r: Request, now: int) returns (ok: bool)
      modifies this
      ensures (seen, ok) == Answer(old(seen), r, now)
      ensures ok <==> Genuine(r, now) && !(r.id in old(seen) && now - old(seen)[r.id] <= 60)
      ensures !Genuine(r, now) ==> seen == old(seen)
      ensures Genuine(r, now) ==>
        forall id :: id in seen <==> id == r.id || (id in old(seen) && now - old(seen)[id] <= 60)
      ensures forall id :: id in seen ==> seen[id] == if ok && id == r.id then now else old(seen)[id]
    {
      if r.timestamp.None? || !r.idIsUuid {
        return false;
      }
      var difference := now - r.timestamp.value;
      if difference > MAX_CLOCK_SKEW_SECONDS || -difference > MAX_CLOCK_SKEW_SECONDS {
        return false;
      }
      if !r.authentic {
        return false;
      }
      seen := map id | id in seen && now - seen[id] <= MAX_CLOCK_SKEW_SECONDS :: seen[id];
      if r.id in seen {
        return false;
      }
      seen := seen[r.id := now];
      return true;
    }
  }

  function Answer(seen: map<string, int>, r: Request, now: int): (map<string, int>, bool) {
    if !Checks(r, now) then (seen, false)
    else
      var kept := Pruned(seen, now);
      if r.id in kept then (kept, false) else (kept[r.id := now], true)
  }

  // Runs

  datatype Arrival = Arrival(request: Request, at: int)

  predicate ClockNeverGoesBack(arrivals: seq<Arrival>) {
    forall i, j :: 0 <= i < j < |arrivals| ==> arrivals[i].at <= arrivals[j].at
  }

  /** The ids remembered after the arrivals. */
  function SeenAfter(arrivals: seq<Arrival>): map<string, int> {
    if arrivals == [] then map[]
    else
      var n := |arrivals| - 1;
      Answer(SeenAfter(arrivals[..n]), arrivals[n].request, arrivals[n].at).0
  }

  /** Whether the i-th arrival is accepted. */
  predicate Accepted(arrivals: seq<Arrival>, i: nat)
    requires i < |arrivals|
  {
    Answer(SeenAfter(arrivals[..i]), arrivals[i].request, arrivals[i].at).1
  }

  /** The i-th arrival was accepted with this id. */
  predicate AcceptedAs(arrivals: seq<Arrival>, i: nat, id: string)
    requires i < |arrivals|
  {
    Accepted(arrivals, i) && arrivals[i].request.id == id
  }

  lemma AcceptedPrefix(arrivals: seq<Arrival>, i: nat, n: nat)
    requires i < n <= |arrivals|
    ensures Accepted(arrivals[..n], i) <==> Accepted(arrivals, i)
  {
    assert arrivals[..n][..i] == arrivals[..i];
  }

  // Any clock

  predicate GenuineAt(arrivals: seq<Arrival>, i: nat)
    requires i < |arrivals|
  {
    Genuine(arrivals[i].request, arrivals[i].at)
  }

  /** What is accepted is signed, has a UUID for an id, and is no more than a minute early or late. */
  lemma AcceptedIsGenuine(arrivals: seq<Arrival>, i: nat)
    requires i < |arrivals| && Accepted(arrivals, i)
    ensures var r, at := arrivals[i].request, arrivals[i].at;
            && r.authentic && r.idIsUuid && r.timestamp.Some?
            && at <= r.timestamp.value + 60 && r.timestamp.value <= at + 60
  {
    hide SeenAfter;
  }

  /** Anything else leaves all that is remembered as it was, and so every later answer. */
  lemma {:induction false} RefusalsLeaveNoTrace(arrivals: seq<Arrival>, bad: Arrival, rest: seq<Arrival>)
    requires !(bad.request.authentic && bad.request.idIsUuid && bad.request.timestamp.Some?
               && -60 <= bad.at - bad.request.timestamp.value <= 60)
    ensures !Accepted(arrivals + [bad] + rest, |arrivals|)
    ensures SeenAfter(arrivals + [bad] + rest) == SeenAfter(arrivals + rest)
    decreases |rest|
  {
    var all, n := arrivals + [bad] + rest, |rest| - 1;
    if rest == [] {
      assert all[..|arrivals|] == arrivals && arrivals + rest == arrivals;
    } else {
      RefusalsLeaveNoTrace(arrivals, bad, rest[..n]);
      assert all[..|all| - 1] == arrivals + [bad] + rest[..n];
      assert (arrivals + rest)[..|arrivals| + n] == arrivals + rest[..n];
      assert (arrivals + [bad] + rest[..n])[..|arrivals|] == all[..|arrivals|];
    }
  }

  /** No arrival that got as far as pruning came more than a minute later, by its own clock. */
  predicate Unforgotten(arrivals: seq<Arrival>, p: nat)
    requires p < |arrivals|
  {
    forall q :: p < q < |arrivals| && GenuineAt(arrivals, q) ==>
      arrivals[q].at - arrivals[p].at <= 60
  }

  /** The acceptance that the map remembers the id by. */
  predicate RememberedBy(arrivals: seq<Arrival>, id: string, p: int) {
    0 <= p < |arrivals| && AcceptedAs(arrivals, p, id) && Unforgotten(arrivals, p)
  }

  /** One more arrival forgets an acceptance just when it prunes and is more than a minute later. */
  lemma RememberedStep(arrivals: seq<Arrival>, id: string, p: nat)
    requires p < |arrivals| - 1
    ensures var n := |arrivals| - 1;
            RememberedBy(arrivals, id, p) <==>
              RememberedBy(arrivals[..n], id, p)
              && (GenuineAt(arrivals, n) ==> arrivals[n].at - arrivals[p].at <= 60)
  {
    var n := |arrivals| - 1;
    var past := arrivals[..n];
    AcceptedPrefix(arrivals, p, n);
    hide Accepted, Checks;
    assert forall q :: 0 <= q < n ==> past[q] == arrivals[q];
    assert forall q :: 0 <= q < n ==> GenuineAt(past, q) == GenuineAt(arrivals, q);
  }

  /** The map holds an id just when some acceptance of it is not forgotten, and at its time. */
  ghost predicate Reflects(arrivals: seq<Arrival>, seen: map<string, int>, id: string) {
    && (id in seen <==> exists p :: RememberedBy(arrivals, id, p))
    && (forall p :: RememberedBy(arrivals, id, p) ==> 0 <= p < |arrivals| && id in seen && seen[id] == arrivals[p].at)
  }

  /** What the map holds of an id, whatever the clock has done: the acceptance not yet forgotten. */
  lemma {:induction false} SeenExactly(arrivals: seq<Arrival>, id: string)
    ensures Reflects(arrivals, SeenAfter(arrivals), id)
  {
    if arrivals != [] {
      var n := |arrivals| - 1;
      SeenExactly(arrivals[..n], id);
      SeenStep(arrivals, id);
    }
  }

  /** What one answer does to one id of the map. */
  lemma AnswerOnId(seen: map<string, int>, r: Request, now: int, id: string)
    ensures var (after, ok) := Answer(seen, r, now);
            var kept := id in seen && (Checks(r, now) ==> now - seen[id] <= 60);
            && (ok && r.id == id ==> !kept)
            && (id in after <==> kept || (ok && r.id == id))
            && (id in after ==> after[id] == if kept then seen[id] else now)
  {
  }

  lemma SeenStep(arrivals: seq<Arrival>, id: string)
    requires arrivals != [] && Reflects(arrivals[..|arrivals| - 1], SeenAfter(arrivals[..|arrivals| - 1]), id)
    ensures Reflects(arrivals, SeenAfter(arrivals), id)
  {
    var n := |arrivals| - 1;
    var past, last := arrivals[..n], arrivals[n];
    var before, after := SeenAfter(past), SeenAfter(arrivals);
    AnswerOnId(before, last.request, last.at, id);
    assert (after, Accepted(arrivals, n)) == Answer(before, last.request, last.at);
    var kept := id in before && (GenuineAt(arrivals, n) ==> last.at - before[id] <= 60);
    assert RememberedBy(arrivals, id, n) <==> Accepted(arrivals, n) && last.request.id == id;
    hide SeenAfter, Accepted, Answer, GenuineAt;
    forall p | RememberedBy(arrivals, id, p)
      ensures 0 <= p <= n && (p < n ==> kept && before[id] == arrivals[p].at)
    {
      if p < n {
        RememberedStep(arrivals, id, p);
      }
    }
    if kept {
      var p :| RememberedBy(past, id, p);
      assert past[p] == arrivals[p];
      RememberedStep(arrivals, id, p);
    }
  }

  /** The id was accepted within the last minute, and not forgotten in between. */
  ghost predicate StillKnown(arrivals: seq<Arrival>, id: string, now: int) {
    exists p :: 0 <= p < |arrivals| && RememberedBy(arrivals, id, p) && now - arrivals[p].at <= 60
  }

  /**
   * Whatever the clock does, a request is accepted exactly when it passes the other checks and its
   * id has no acceptance within the last minute that is still known: one that no arrival in
   * between, with a clock more than a minute past it, has had forgotten.
   */
  lemma AcceptedForAnyClock(arrivals: seq<Arrival>, i: nat)
    requires i < |arrivals|
    ensures Accepted(arrivals, i) <==>
            var r, at := arrivals[i].request, arrivals[i].at;
            && r.authentic && r.idIsUuid && r.timestamp.Some? && -60 <= at - r.timestamp.value <= 60
            && !StillKnown(arrivals[..i], r.id, at)
  {
    var past, id, now := arrivals[..i], arrivals[i].request.id, arrivals[i].at;
    SeenExactly(past, id);
    assert Accepted(arrivals, i) <==> GenuineAt(arrivals, i) && id !in Pruned(SeenAfter(past), now);
    hide SeenAfter, Accepted, Checks, RememberedBy;
  }

  /** An id accepted again within the minute had been forgotten by an arrival more than a minute ahead. */
  lemma EarlyRepeatWasForgotten(arrivals: seq<Arrival>, i: nat, j: nat)
    requires i < j < |arrivals| && arrivals[i].request.id == arrivals[j].request.id
    requires Accepted(arrivals, i) && Accepted(arrivals, j)
    requires arrivals[j].at - arrivals[i].at <= 60
    ensures exists q :: i < q < j && GenuineAt(arrivals, q) && arrivals[q].at - arrivals[i].at > 60
  {
    AcceptedForAnyClock(arrivals, j);
    AcceptedPrefix(arrivals, i, j);
    var past := arrivals[..j];
    hide Accepted, Checks;
    assert past[i] == arrivals[i] && !RememberedBy(past, arrivals[j].request.id, i);
    var q :| i < q < j && GenuineAt(past, q) && past[q].at - past[i].at > 60;
    assert past[q] == arrivals[q] && GenuineAt(arrivals, q);
  }

  // A clock that never goes back

  /** The request id was accepted within the last minute, by the whole history. */
  ghost predicate RecentlyAccepted(arrivals: seq<Arrival>, id: string, now: int) {
    exists i :: 0 <= i < |arrivals| && AcceptedAs(arrivals, i, id) && now - arrivals[i].at <= 60
  }

  /**
   * While the clock never goes back, a request is accepted exactly when it passes the other checks
   * and its id has not been accepted within the last minute, however much has been forgotten.
   */
  lemma AcceptedExactly(arrivals: seq<Arrival>, i: nat)
    requires i < |arrivals| && ClockNeverGoesBack(arrivals)
    ensures Accepted(arrivals, i) <==>
            var r, at := arrivals[i].request, arrivals[i].at;
            && r.authentic && r.idIsUuid && r.timestamp.Some? && -60 <= at - r.timestamp.value <= 60
            && !RecentlyAccepted(arrivals[..i], arrivals[i].request.id, arrivals[i].at)
  {
    var past, id, now := arrivals[..i], arrivals[i].request.id, arrivals[i].at;
    AcceptedForAnyClock(arrivals, i);
    hide Accepted, Checks;
    assert forall q :: 0 <= q < i ==> past[q].at <= now;
    assert StillKnown(past, id, now) <==> RecentlyAccepted(past, id, now) by {
      forall p | 0 <= p < i && AcceptedAs(past, p, id) && now - past[p].at <= 60
        ensures RememberedBy(past, id, p)
      {
      }
    }
  }

  /** Two acceptances of one request id are more than a minute apart. */
  lemma AcceptancesFarApart(arrivals: seq<Arrival>, i: nat, j: nat)
    requires i < j < |arrivals| && ClockNeverGoesBack(arrivals)
    requires Accepted(arrivals, i) && Accepted(arrivals, j) && arrivals[i].request.id == arrivals[j].request.id
    ensures arrivals[j].at - arrivals[i].at > 60
  {
    AcceptedExactly(arrivals, j);
    AcceptedPrefix(arrivals, i, j);
    assert arrivals[..j][i] == arrivals[i];
    hide Accepted, Checks;
    assert AcceptedAs(arrivals[..j], i, arrivals[j].request.id);
  }

  /** Of three arrivals of one signed request at most two are accepted. */
  lemma AtMostTwice(arrivals: seq<Arrival>, i: nat, j: nat, k: nat)
    requires i < j < k < |arrivals| && ClockNeverGoesBack(arrivals)
    requires arrivals[i].request == arrivals[j].request == arrivals[k].request
    ensures !(Accepted(arrivals, i) && Accepted(arrivals, j) && Accepted(arrivals, k))
  {
    if Accepted(arrivals, i) && Accepted(arrivals, j) && Accepted(arrivals, k) {
      AcceptancesFarApart(arrivals, i, j);
      AcceptancesFarApart(arrivals, j, k);
    }
  }

  /** It is accepted a second time only if it was signed for later than it first came. */
  lemma TwiceOnlyWhenEarly(arrivals: seq<Arrival>, i: nat, j: nat)
    requires i < j < |arrivals| && ClockNeverGoesBack(arrivals)
    requires arrivals[i].request == arrivals[j].request
    requires Accepted(arrivals, i) && Accepted(arrivals, j)
    ensures arrivals[i].request.timestamp.value > arrivals[i].at
  {
    AcceptancesFarApart(arrivals, i, j);
  }

  /** If the clock goes back, an id forgotten meanwhile is accepted again within the minute. */
  lemma ClockGoingBack(r: Request, other: Request, at: int)
    requires Genuine(r, at) && Genuine(r, at + 10) && Genuine(other, at + 70) && r.id != other.id
    ensures var arrivals := [Arrival(r, at), Arrival(other, at + 70), Arrival(r, at + 10)];
            Accepted(arrivals, 0) && Accepted(arrivals, 2)
  {
    var a, b, c := Arrival(r, at), Arrival(other, at + 70), Arrival(r, at + 10);
    var arrivals := [a, b, c];
    assert arrivals[..0] == [] && arrivals[..1] == [a] && arrivals[..2] == [a, b];
    assert [a][..0] == [] && [a, b][..1] == [a];
    assert SeenAfter([]) == map[];
    assert SeenAfter([a]) == Answer(map[], r, at).0;
    assert SeenAfter([a]) == map[r.id := at];
    assert SeenAfter([a, b]) == Answer(map[r.id := at], other, at + 70).0;
    assert Pruned(map[r.id := at], at + 70) == map[];
    assert SeenAfter([a, b]) == map[other.id := at + 70];
  }
}
