/** The owner-request admin actions: the bulk status updates `mark_paid` and
    `reject_request`, and `approve_request`, which approves each selected request,
    promotes its requester and turns its sub-venues into real venues. */
module Admin {
  import opened Wrappers
  import opened Models

  // ---------------- mark_paid / reject_request ----------------

  /** `queryset.update(status=s)` over the selected requests: the new table, and the
      number of rows the update matched. */
  function BulkStatus(t: Tables, selected: set<Id>, s: Status): (r: (Tables, nat))
    ensures r.0.ownerRequests.Keys == t.ownerRequests.Keys
    ensures r.1 <= |t.ownerRequests|
  {
    SubsetSize(selected * t.ownerRequests.Keys, t.ownerRequests.Keys);
    (t.(ownerRequests := map k | k in t.ownerRequests ::
                           if k in selected then t.ownerRequests[k].(status := s) else t.ownerRequests[k]),
     |selected * t.ownerRequests.Keys|)
  }

  /** mark_paid: the selected requests are paid, and so are no longer pending. */
  function MarkPaid(t: Tables, selected: set<Id>): (r: (Tables, nat))
    ensures r.0.ownerRequests.Keys == t.ownerRequests.Keys
    ensures forall k :: k in selected && k in t.ownerRequests ==> r.0.ownerRequests[k].status == Paid
    ensures PendingRequests(r.0.ownerRequests) == PendingRequests(t.ownerRequests) - selected
  {
    BulkStatusPending(t, selected, Paid);
    BulkStatus(t, selected, Paid)
  }

  /** reject_request: the selected requests are rejected, and so are no longer pending. */
  function RejectRequest(t: Tables, selected: set<Id>): (r: (Tables, nat))
    ensures r.0.ownerRequests.Keys == t.ownerRequests.Keys
    ensures forall k :: k in selected && k in t.ownerRequests ==> r.0.ownerRequests[k].status == Rejected
    ensures PendingRequests(r.0.ownerRequests) == PendingRequests(t.ownerRequests) - selected
  {
    BulkStatusPending(t, selected, Rejected);
    BulkStatus(t, selected, Rejected)
  }

  /** Every selected request gets the new status whatever it had before, and keeps
      every other field; unselected requests and the other tables do not change; the
      reported number is that of the selected requests that exist, at most the number
      of requests. */
  lemma BulkStatusEffect(t: Tables, selected: set<Id>, s: Status)
    ensures var (t', updated) := BulkStatus(t, selected, s);
      && t' == t.(ownerRequests := t'.ownerRequests)
      && t'.ownerRequests.Keys == t.ownerRequests.Keys
      && (forall k :: k in t.ownerRequests && k in selected ==>
            t'.ownerRequests[k].status == s && t'.ownerRequests[k] == t.ownerRequests[k].(status := s))
      && (forall k :: k in t.ownerRequests && k !in selected ==> t'.ownerRequests[k] == t.ownerRequests[k])
      && updated == |selected * t.ownerRequests.Keys|
      && updated <= |t.ownerRequests|
  {
    SubsetSize(selected * t.ownerRequests.Keys, t.ownerRequests.Keys);
  }

  /** Running the same bulk update twice is the same as running it once. */
  lemma BulkStatusIdempotent(t: Tables, selected: set<Id>, s: Status)
    ensures BulkStatus(BulkStatus(t, selected, s).0, selected, s).0 == BulkStatus(t, selected, s).0
  {
    var once := BulkStatus(t, selected, s).0;
    var twice := BulkStatus(once, selected, s).0;
    assert twice.ownerRequests == once.ownerRequests;
  }

  /** After marking as paid or rejecting, the pending requests are those pending
      before that were not selected. */
  lemma BulkStatusPending(t: Tables, selected: set<Id>, s: Status)
    requires s != Pending
    ensures PendingRequests(BulkStatus(t, selected, s).0.ownerRequests) == PendingRequests(t.ownerRequests) - selected
  {
  }

  lemma BulkStatusConsistent(t: Tables, selected: set<Id>, s: Status)
    requires Consistent(t)
    ensures Consistent(BulkStatus(t, selected, s).0)
  {
  }

  // ---------------- approve_request ----------------

  /** Python's `x or None` on an optional integer: 0 is false, so it becomes None. */
  function OrNone(x: Option<int>): (r: Option<int>)
    ensures r.None? <==> x.None? || x == Some(0)
    ensures r.Some? ==> r == x
  {
    if x == Some(0) then None else x
  }

  /** The venue approval builds from a sub-venue of request `req`. `x or ""` on the
      non-null text columns `business_address`, `notes` and `tipo` gives back `x`. */
  function VenueFrom(req: OwnerRequest, sv: SubVenueFields): (q: Quadra)
    ensures q.nome == sv.nome && q.dono == req.user
    ensures q.endereco == req.business_address && q.descricao == sv.notes && q.tipo == sv.tipo
    ensures q.capacidade.None? <==> sv.capacidade.None? || sv.capacidade == Some(0)
    ensures q.capacidade.Some? ==> q.capacidade == sv.capacidade
  {
    Quadra(sv.nome, req.business_address, sv.notes, sv.tipo, req.user, OrNone(sv.capacidade))
  }

  /** The keys below `n` of the sub-venues of request `rid`, in increasing order (the
      order `obj.quadras.all()` is taken in). */
  function SubVenueKeys(table: map<Id, OwnerRequestQuadra>, rid: Id, n: nat): (ks: seq<Id>)
    ensures forall k :: k in ks <==> k in table && k < n && table[k].owner_request == rid
    ensures forall i :: 0 <= i < |ks| ==> ks[i] < n
    ensures forall i, j :: 0 <= i < j < |ks| ==> ks[i] < ks[j]
    decreases n
  {
    if n == 0 then []
    else
      var prev := SubVenueKeys(table, rid, n - 1);
      if n - 1 in table && table[n - 1].owner_request == rid then prev + [n - 1] else prev
  }

  /** A sequence without repeated elements is as long as the set of its elements. */
  lemma {:induction false} DistinctSize(ks: seq<Id>, s: set<Id>)
    requires forall i, j :: 0 <= i < j < |ks| ==> ks[i] < ks[j]
    requires forall k :: k in s <==> k in ks
    ensures |s| == |ks|
    decreases |ks|
  {
    if ks != [] {
      var init := ks[..|ks| - 1];
      var last := ks[|ks| - 1];
      forall k ensures k in s - {last} <==> k in init {
        if k in init {
          var i :| 0 <= i < |init| && init[i] == k;
          assert ks[i] < last;
        }
        if k in ks && k != last {
          var i :| 0 <= i < |ks| && ks[i] == k;
          assert i < |init| && init[i] == k;
        }
      }
      DistinctSize(init, s - {last});
    }
  }

  /** When every key is below `n`, the scan finds every sub-venue of the request once. */
  lemma SubVenueKeysCount(table: map<Id, OwnerRequestQuadra>, rid: Id, n: nat)
    requires forall k :: k in table ==> k < n
    ensures |SubVenueKeys(table, rid, n)| == |SubVenuesOfRequest(table, rid)|
  {
    DistinctSize(SubVenueKeys(table, rid, n), SubVenuesOfRequest(table, rid));
  }

  /** An approvable request exists and its requester's row resolves (reading
      `obj.user` of a dangling key raises). */
  predicate Approvable(t: Tables, rid: Id) {
    rid in t.ownerRequests && t.ownerRequests[rid].user in t.usuarios
  }

  /** The venues built for request `req` from the sub-venue rows under keys `ks`. */
  function VenuesFor(req: OwnerRequest, table: map<Id, OwnerRequestQuadra>, ks: seq<Id>): (vs: seq<Quadra>)
    requires forall i :: 0 <= i < |ks| ==> ks[i] in table
    ensures |vs| == |ks|
    ensures forall i :: 0 <= i < |ks| ==> vs[i] == VenueFrom(req, table[ks[i]].fields)
  {
    seq(|ks|, i requires 0 <= i < |ks| => VenueFrom(req, table[ks[i]].fields))
  }

  /** The venues approval creates for request `rid`, one per sub-venue, in order. */
  function ApprovedVenues(t: Tables, rid: Id): (vs: seq<Quadra>)
    requires rid in t.ownerRequests
    ensures var ks := SubVenueKeys(t.requestQuadras, rid, t.nextId);
      && |vs| == |ks|
      && forall i :: 0 <= i < |ks| ==>
           (ks[i] in t.requestQuadras && vs[i] == VenueFrom(t.ownerRequests[rid], t.requestQuadras[ks[i]].fields))
  {
    var ks := SubVenueKeys(t.requestQuadras, rid, t.nextId);
    seq(|ks|, i requires 0 <= i < |ks| => VenueFrom(t.ownerRequests[rid], t.requestQuadras[ks[i]].fields))
  }

  /** The venues of `rid` are those built from its sub-venue keys. */
  lemma ApprovedVenuesFor(t: Tables, rid: Id)
    requires rid in t.ownerRequests
    ensures ApprovedVenues(t, rid)
         == VenuesFor(t.ownerRequests[rid], t.requestQuadras, SubVenueKeys(t.requestQuadras, rid, t.nextId))
  {
  }

  /** One pass of the approval loop: the request becomes approved, its requester gets
      `tipo = "admin"`, and one venue owned by the requester is created per
      sub-venue, under fresh keys. */
  function ApproveOne(t: Tables, rid: Id): (r: Tables)
    requires Approvable(t, rid)
    ensures r.ownerRequests.Keys == t.ownerRequests.Keys && r.usuarios.Keys == t.usuarios.Keys
    ensures forall k :: k in t.ownerRequests ==> r.ownerRequests[k].user == t.ownerRequests[k].user
    ensures r.requestQuadras == t.requestQuadras && r.nextId >= t.nextId
  {
    var req := t.ownerRequests[rid];
    var venues := ApprovedVenues(t, rid);
    t.(ownerRequests := t.ownerRequests[rid := req.(status := Approved)],
       usuarios := t.usuarios[req.user := t.usuarios[req.user].(tipo := Admin)],
       quadras := Appended(t.quadras, t.nextId, venues),
       nextId := t.nextId + |venues|)
  }

  /** The whole approval loop over the selected requests, in queryset order. Requests
      and users are neither added nor removed, and no request changes its requester,
      so every selected request stays approvable. */
  function ApproveAll(t: Tables, selected: seq<Id>): (r: Tables)
    requires forall i :: 0 <= i < |selected| ==> Approvable(t, selected[i])
    ensures r.ownerRequests.Keys == t.ownerRequests.Keys && r.usuarios.Keys == t.usuarios.Keys
    ensures forall k :: k in t.ownerRequests ==> r.ownerRequests[k].user == t.ownerRequests[k].user
    ensures r.requestQuadras == t.requestQuadras && r.nextId >= t.nextId
    decreases |selected|
  {
    if selected == [] then t
    else
      var init := selected[..|selected| - 1];
      var last := selected[|selected| - 1];
      assert forall i :: 0 <= i < |init| ==> init[i] == selected[i];
      assert Approvable(t, last);
      ApproveOne(ApproveAll(t, init), last)
  }

  /** Approval keeps every approvable request approvable. */
  lemma ApproveAllKeepsApprovable(t: Tables, selected: seq<Id>, rid: Id)
    requires forall i :: 0 <= i < |selected| ==> Approvable(t, selected[i])
    requires Approvable(t, rid)
    ensures Approvable(ApproveAll(t, selected), rid)
  {
  }

  /** Every selected request is approved whatever its prior status, with its other
      fields kept; the other requests do not change. */
  lemma {:induction false} ApproveAllStatuses(t: Tables, selected: seq<Id>)
    requires forall i :: 0 <= i < |selected| ==> Approvable(t, selected[i])
    ensures var r := ApproveAll(t, selected);
      forall k :: k in t.ownerRequests ==>
        r.ownerRequests[k] == if k in selected then t.ownerRequests[k].(status := Approved) else t.ownerRequests[k]
    decreases |selected|
  {
    if selected != [] {
      var init := selected[..|selected| - 1];
      var last := selected[|selected| - 1];
      ApproveAllStatuses(t, init);
      assert forall k :: k in selected <==> k in init || k == last;
    }
  }

  /** The requesters of the selected requests. */
  function Requesters(t: Tables, selected: seq<Id>): set<Id>
    requires forall i :: 0 <= i < |selected| ==> selected[i] in t.ownerRequests
    decreases |selected|
  {
    if selected == [] then {}
    else
      var init := selected[..|selected| - 1];
      assert forall i :: 0 <= i < |init| ==> init[i] == selected[i];
      Requesters(t, init) + {t.ownerRequests[selected[|selected| - 1]].user}
  }

  /** One pass promotes the request's requester and nobody else. */
  lemma ApproveOneUsers(t: Tables, rid: Id)
    requires Approvable(t, rid)
    ensures var u := t.ownerRequests[rid].user;
      ApproveOne(t, rid).usuarios == t.usuarios[u := t.usuarios[u].(tipo := Admin)]
  {
  }

  /** Every requester of a selected request gets `tipo = "admin"` and keeps every
      other field (`is_staff` included); nobody else changes. */
  lemma {:induction false} ApproveAllUsers(t: Tables, selected: seq<Id>)
    requires forall i :: 0 <= i < |selected| ==> Approvable(t, selected[i])
    ensures var r := ApproveAll(t, selected);
      forall u :: u in t.usuarios ==>
        r.usuarios[u] == if u in Requesters(t, selected) then t.usuarios[u].(tipo := Admin) else t.usuarios[u]
    decreases |selected|
  {
    if selected != [] {
      var init := selected[..|selected| - 1];
      assert forall i :: 0 <= i < |init| ==> init[i] == selected[i];
      var last := selected[|selected| - 1];
      var prev := ApproveAll(t, init);
      var u0 := t.ownerRequests[last].user;
      ApproveAllUsers(t, init);
      assert prev.ownerRequests[last].user == u0;
      var r := ApproveOne(prev, last);
      assert r.usuarios == prev.usuarios[u0 := prev.usuarios[u0].(tipo := Admin)] by {
        ApproveOneUsers(prev, last);
      }
      assert ApproveAll(t, selected) == r;
      var before := Requesters(t, init);
      assert Requesters(t, selected) == before + {u0};
      forall u | u in t.usuarios
        ensures r.usuarios[u] == if u in before + {u0} then t.usuarios[u].(tipo := Admin) else t.usuarios[u]
      {
        if u != u0 {
          assert r.usuarios[u] == prev.usuarios[u];
        }
      }
    }
  }

  /** The whole approval touches neither the images nor the reservations. */
  lemma {:induction false} ApproveAllFrame(t: Tables, selected: seq<Id>)
    requires forall i :: 0 <= i < |selected| ==> Approvable(t, selected[i])
    ensures var r := ApproveAll(t, selected);
      r.requestImages == t.requestImages && r.agendamentos == t.agendamentos
    decreases |selected|
  {
    if selected != [] {
      var init := selected[..|selected| - 1];
      assert forall i :: 0 <= i < |init| ==> init[i] == selected[i];
      var last := selected[|selected| - 1];
      ApproveAllFrame(t, init);
      ApproveAllKeepsApprovable(t, init, last);
      assert ApproveAll(t, selected) == ApproveOne(ApproveAll(t, init), last);
    }
  }

  /** Approval of one request appends its venues after the old venues, which it
      keeps, builds each from its sub-venue, and touches neither the sub-venue rows,
      the images nor the reservations. */
  lemma ApproveOneVenues(t: Tables, rid: Id)
    requires Approvable(t, rid)
    requires forall k :: k in t.quadras ==> k < t.nextId
    ensures var r := ApproveOne(t, rid);
      && r.requestQuadras == t.requestQuadras && r.requestImages == t.requestImages
      && r.agendamentos == t.agendamentos
      && AppendedAt(t.quadras, r.quadras, t.nextId, ApprovedVenues(t, rid))
  {
    AppendedIsAppendedAt(t.quadras, t.nextId, ApprovedVenues(t, rid));
  }

  /** `c` rows appended under fresh keys make a table `c` rows longer. */
  lemma AppendedSize<V>(m: map<Id, V>, n: Id, vs: seq<V>)
    requires forall k :: k in m ==> k < n
    ensures |Appended(m, n, vs)| == |m| + |vs|
  {
    AppendedIsAppendedAt(m, n, vs);
    KeyRangeSize(n, |vs|);
    assert m.Keys !! KeyRange(n, |vs|);
    assert |Appended(m, n, vs).Keys| == |m.Keys| + |KeyRange(n, |vs|)|;
  }

  /** Approving one request creates exactly as many venues as it has sub-venues. */
  lemma ApproveOneCount(t: Tables, rid: Id)
    requires Approvable(t, rid) && KeysBelowCounter(t)
    ensures |ApproveOne(t, rid).quadras| == |t.quadras| + |SubVenuesOfRequest(t.requestQuadras, rid)|
  {
    AppendedSize(t.quadras, t.nextId, ApprovedVenues(t, rid));
    SubVenueKeysCount(t.requestQuadras, rid, t.nextId);
  }

  lemma ApproveOneConsistent(t: Tables, rid: Id)
    requires Approvable(t, rid) && Consistent(t)
    ensures Consistent(ApproveOne(t, rid))
  {
    ApproveOneVenues(t, rid);
    var r := ApproveOne(t, rid);
    var vs := ApprovedVenues(t, rid);
    forall k | k in r.quadras ensures r.quadras[k].dono in r.usuarios && k < r.nextId {
      if k !in t.quadras {
        assert r.quadras[t.nextId + (k - t.nextId)] == vs[k - t.nextId];
      }
    }
  }

  /** The number of sub-venues of the selected requests, counted per selection. */
  function SubVenueTotal(table: map<Id, OwnerRequestQuadra>, selected: seq<Id>): nat
    decreases |selected|
  {
    if selected == [] then 0
    else SubVenueTotal(table, selected[..|selected| - 1]) + |SubVenuesOfRequest(table, selected[|selected| - 1])|
  }

  /** Approval keeps the tables consistent. */
  lemma {:induction false} ApproveAllConsistent(t: Tables, selected: seq<Id>)
    requires forall i :: 0 <= i < |selected| ==> Approvable(t, selected[i])
    requires Consistent(t)
    ensures Consistent(ApproveAll(t, selected))
    decreases |selected|
  {
    if selected != [] {
      var init := selected[..|selected| - 1];
      ApproveAllConsistent(t, init);
      ApproveOneConsistent(ApproveAll(t, init), selected[|selected| - 1]);
    }
  }

  /** The selected requests' venues are all created: the venue table grows by the
      total number of their sub-venues. */
  lemma {:induction false} ApproveAllCount(t: Tables, selected: seq<Id>)
    requires forall i :: 0 <= i < |selected| ==> Approvable(t, selected[i])
    requires Consistent(t)
    ensures |ApproveAll(t, selected).quadras| == |t.quadras| + SubVenueTotal(t.requestQuadras, selected)
    decreases |selected|
  {
    if selected != [] {
      var init := selected[..|selected| - 1];
      ApproveAllCount(t, init);
      ApproveAllConsistent(t, init);
      ApproveOneCount(ApproveAll(t, init), selected[|selected| - 1]);
    }
  }

  /** No status guard: approving an approved request creates its venues again. */
  lemma ReapprovalDuplicatesVenues(t: Tables, rid: Id)
    requires Approvable(t, rid) && Consistent(t)
    ensures var once := ApproveOne(t, rid);
      && once.ownerRequests[rid].status == Approved
      && Approvable(once, rid)
      && |ApproveOne(once, rid).quadras| == |t.quadras| + 2 * |SubVenuesOfRequest(t.requestQuadras, rid)|
  {
    ApproveOneCount(t, rid);
    ApproveOneConsistent(t, rid);
    ApproveOneVenues(t, rid);
    ApproveOneCount(ApproveOne(t, rid), rid);
  }
}
