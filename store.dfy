/** The database as a mutable object: the six tables the operations write, held as
    maps from primary key to row, and the counter fresh primary keys are drawn from.
    Each operation that writes changes these fields in place, and is proved to leave
    exactly the state its functional specification computes from the old state. */
module Store {
  import opened Wrappers
  import opened Models
  import opened Serializers
  import opened Views
  import Admin

  class Database {
    var usuarios: map<Id, Usuario>
    var quadras: map<Id, Quadra>
    var agendamentos: map<Id, Agendamento>
    var ownerRequests: map<Id, OwnerRequest>
    var requestQuadras: map<Id, OwnerRequestQuadra>
    var requestImages: map<Id, OwnerRequestImage>
    var nextId: Id

    /** The tables as a value. */
    function State(): Tables
      reads this
    {
      Tables(usuarios, quadras, agendamentos, ownerRequests, requestQuadras, requestImages, nextId)
    }

    /** Every foreign key resolves and every key is below the counter. */
    predicate Valid()
      reads this
    {
      Consistent(State())
    }

    /** An empty database; the first key handed out is 1. */
    constructor ()
      ensures State() == Tables(map[], map[], map[], map[], map[], map[], 1)
      ensures Valid()
    {
      usuarios, quadras, agendamentos := map[], map[], map[];
      ownerRequests, requestQuadras, requestImages := map[], map[], map[];
      nextId := 1;
    }

    /** UsuarioSerializer.create behind the registration endpoint: the password is
        popped from the validated data, the user is built from the rest, then the
        password goes through `setPassword` before the row is saved. */
    method CreateUsuario(p: UsuarioPayload, setPassword: string -> string) returns (r: Result<Id, Failure>)
      modifies this
      ensures (State(), r) == RegisterUsuario(old(State()), p, setPassword)
      ensures old(Valid()) ==> Valid()
    {
      ghost var before := State();
      var validated := ValidateUsuario(usuarios, p);
      if validated.Err? {
        return Err(validated.error);
      }
      var data := validated.value;
      var password := data.password;
      var user := Usuario(data.username, data.email, data.first_name, data.last_name, data.tipo, Hashed(""), false);
      user := user.(password := Hashed(setPassword(password)));
      assert user == UsuarioRow(data, setPassword);
      usuarios := usuarios[nextId := user];
      r := Ok(nextId);
      nextId := nextId + 1;
      assert State() == before.(usuarios := before.usuarios[before.nextId := user], nextId := before.nextId + 1);
      if Consistent(before) {
        InsertUsuarioConsistent(before, user);
      }
    }

    /** QuadraViewSet: validation, then perform_create saving the caller as owner. */
    method CreateQuadra(p: QuadraPayload, caller: Option<Id>) returns (r: Result<Id, Failure>)
      modifies this
      ensures (State(), r) == Views.CreateQuadra(old(State()), p, caller)
      ensures old(Valid()) && (caller.Some? ==> caller.value in old(usuarios)) ==> Valid()
    {
      ghost var before := State();
      var validated := ValidateQuadra(usuarios, p);
      if validated.Err? {
        return Err(validated.error);
      }
      var dono := if caller.Some? then caller else validated.value.dono;
      if dono.None? {
        return Err(Integrity("dono_id"));
      }
      var row := QuadraRow(validated.value, dono.value);
      quadras := quadras[nextId := row];
      r := Ok(nextId);
      nextId := nextId + 1;
      assert State() == before.(quadras := before.quadras[before.nextId := row], nextId := before.nextId + 1);
      if Consistent(before) && (caller.Some? ==> caller.value in before.usuarios) {
        InsertQuadraConsistent(before, row);
      }
    }

    /** AgendamentoViewSet: validation, then perform_create saving the caller as the
        reservation's user. */
    method CreateAgendamento(p: AgendamentoPayload, caller: Option<Id>, now: Timestamp) returns (r: Result<Id, Failure>)
      modifies this
      ensures (State(), r) == Views.CreateAgendamento(old(State()), p, caller, now)
      ensures old(Valid()) && (caller.Some? ==> caller.value in old(usuarios)) ==> Valid()
    {
      ghost var before := State();
      var validated := ValidateAgendamento(State(), p);
      if validated.Err? {
        return Err(validated.error);
      }
      var usuario := if caller.Some? then caller else validated.value.usuario;
      if usuario.None? {
        return Err(Integrity("usuario_id"));
      }
      var row := AgendamentoRow(validated.value, usuario.value, now);
      agendamentos := agendamentos[nextId := row];
      r := Ok(nextId);
      nextId := nextId + 1;
      assert State() == before.(agendamentos := before.agendamentos[before.nextId := row], nextId := before.nextId + 1);
      if Consistent(before) && (caller.Some? ==> caller.value in before.usuarios) {
        InsertAgendamentoConsistent(before, row);
      }
    }
 
    /** OwnerRequestListCreateView.create: the `quadras` string is decoded in place
        when it decodes, the body is validated (nothing is saved when it fails; a
        multipart form shows the nested serializer no `quadras` list), the request is
        saved through OwnerRequestSerializer.create with the caller as user, which
        inserts one sub-venue per entry, and one image is inserted per uploaded file. */
    method SubmitOwnerRequest(b: Body, caller: Option<Id>,
                              loads: string -> Option<QuadrasValue>, now: Timestamp) returns (r: Result<Id, Failure>)
      modifies this
      ensures (State(), r) == Views.SubmitOwnerRequest(old(State()), b, caller, loads, now)
      ensures old(Valid()) && (caller.Some? ==> caller.value in old(usuarios)) ==> Valid()
    {
      ghost var before := State();
      var data := DecodeQuadras(b.payload, loads);
      if b.Multipart? {
        data := data.(quadras := None);
      }
      var validated := ValidateOwnerRequest(data);
      if validated.Err? {
        return Err(validated.error);
      }
      if caller.None? {
        return Err(Integrity("user_id"));
      }
      var v := validated.value;
      var rid := nextId;
      ownerRequests := ownerRequests[rid := OwnerRequestRow(v, caller.value, now)];
      nextId := nextId + 1;
      assert State() == InsertOwnerRequest(before, v, caller.value, now);
      InsertSubVenues(rid, v.quadras.GetOr([]));
      var files := if b.Multipart? then b.files else [];
      InsertImages(rid, files, now);
      r := Ok(rid);
      assert (State(), r) == Views.SubmitOwnerRequest(before, b, caller, loads, now) by {
        SubmitOwnerRequestSteps(before, b, caller.value, loads, now);
      }
      if Consistent(before) && caller.value in before.usuarios {
        SubmitOwnerRequestConsistent(before, b, caller, loads, now);
      }
    }

    /** The pre-parse of the view: a non-empty `quadras` string is replaced, in the
        body, by its decoding when `loads` decodes it. */
    static method DecodeQuadras(p: OwnerRequestPayload, loads: string -> Option<QuadrasValue>) returns (data: OwnerRequestPayload)
      ensures data == PreParseQuadras(p, loads)
    {
      data := p;
      if data.quadras.Some? && data.quadras.value.Text? && data.quadras.value.text != "" {
        var parsed := loads(data.quadras.value.text);
        if parsed.Some? {
          data := data.(quadras := parsed);
        }
      }
    }

    /** The loop of OwnerRequestSerializer.create: one sub-venue row of `rid` per
        entry, in order. */
    method InsertSubVenues(rid: Id, entries: seq<SubVenueFields>)
      modifies this
      ensures State() == AddSubVenues(old(State()), rid, entries)
    {
      ghost var rows := SubVenueRows(rid, entries);
      ghost var n0 := nextId;
      var i := 0;
      while i < |entries|
        invariant 0 <= i <= |entries|
        invariant nextId == n0 + i
        invariant requestQuadras == Appended(old(requestQuadras), n0, rows[..i])
        invariant State() == old(State()).(requestQuadras := requestQuadras, nextId := nextId)
      {
        assert rows[..i + 1][..i] == rows[..i];
        requestQuadras := requestQuadras[nextId := OwnerRequestQuadra(rid, entries[i])];
        nextId := nextId + 1;
        i := i + 1;
      }
      assert rows[..|entries|] == rows;
    }

    /** The upload loop of the view: one image row of `rid` per file, in order. */
    method InsertImages(rid: Id, files: seq<Upload>, now: Timestamp)
      modifies this
      ensures State() == AttachImages(old(State()), rid, files, now)
    {
      ghost var rows := ImageRows(rid, files, now);
      ghost var n0 := nextId;
      var i := 0;
      while i < |files|
        invariant 0 <= i <= |files|
        invariant nextId == n0 + i
        invariant requestImages == Appended(old(requestImages), n0, rows[..i])
        invariant State() == old(State()).(requestImages := requestImages, nextId := nextId)
      {
        assert rows[..i + 1][..i] == rows[..i];
        requestImages := requestImages[nextId := OwnerRequestImage(None, Some(rid), files[i], now)];
        nextId := nextId + 1;
        i := i + 1;
      }
      assert rows[..|files|] == rows;
    }

    // ---------------- admin actions on owner requests ----------------

    /** `mark_paid`: one bulk update of the selected requests to "paid"; the number of
        rows it matched is returned. */
    method MarkPaid(selected: set<Id>) returns (updated: nat)
      modifies this
      ensures (State(), updated) == Admin.MarkPaid(old(State()), selected)
      ensures old(Valid()) ==> Valid()
    {
      ghost var before := State();
      updated := |selected * ownerRequests.Keys|;
      SetStatus(selected, Paid);
      if Consistent(before) {
        Admin.BulkStatusConsistent(before, selected, Paid);
      }
    }

    /** `reject_request`: one bulk update of the selected requests to "rejected". */
    method RejectRequest(selected: set<Id>) returns (updated: nat)
      modifies this
      ensures (State(), updated) == Admin.RejectRequest(old(State()), selected)
      ensures old(Valid()) ==> Valid()
    {
      ghost var before := State();
      updated := |selected * ownerRequests.Keys|;
      SetStatus(selected, Rejected);
      if Consistent(before) {
        Admin.BulkStatusConsistent(before, selected, Rejected);
      }
    }

    /** `queryset.update(status=s)`: the selected requests that exist get status `s`. */
    method SetStatus(selected: set<Id>, s: Status)
      modifies this
      ensures State() == Admin.BulkStatus(old(State()), selected, s).0
    {
      ownerRequests := map k | k in ownerRequests ::
                         if k in selected then ownerRequests[k].(status := s) else ownerRequests[k];
    }

    /** `approve_request`: the loop over the selected requests, in queryset order;
        the number returned counts every request the loop visited. */
    method ApproveRequest(selected: seq<Id>) returns (approved: nat)
      requires forall i :: 0 <= i < |selected| ==> Admin.Approvable(State(), selected[i])
      modifies this
      ensures State() == Admin.ApproveAll(old(State()), selected)
      ensures approved == |selected|
      ensures old(Valid()) ==> Valid()
    {
      ghost var t0 := State();
      approved := 0;
      var i := 0;
      while i < |selected|
        invariant 0 <= i <= |selected|
        invariant approved == i
        invariant State() == Admin.ApproveAll(t0, selected[..i])
      {
        ghost var prefix := selected[..i + 1];
        assert prefix[..i] == selected[..i] && prefix[i] == selected[i];
        assert Admin.Approvable(State(), selected[i]) by {
          Admin.ApproveAllKeepsApprovable(t0, selected[..i], selected[i]);
        }
        ApproveOne(selected[i]);
        assert State() == Admin.ApproveAll(t0, prefix);
        approved := approved + 1;
        i := i + 1;
      }
      assert selected[..|selected|] == selected;
      if Consistent(t0) {
        Admin.ApproveAllConsistent(t0, selected);
      }
    }

    /** One pass of the approval loop: the request is saved as approved, its
        requester as an admin, and one venue is created per sub-venue of the request. */
    method ApproveOne(rid: Id)
      requires Admin.Approvable(State(), rid)
      modifies this
      ensures State() == Admin.ApproveOne(old(State()), rid)
    {
      var req := ownerRequests[rid];
      ownerRequests := ownerRequests[rid := req.(status := Approved)];
      var usr := req.user;
      usuarios := usuarios[usr := usuarios[usr].(tipo := Admin)];
      var ks := Admin.SubVenueKeys(requestQuadras, rid, nextId);
      Admin.ApprovedVenuesFor(old(State()), rid);
      CreateVenues(req, ks);
    }

    /** The inner loop of approval: for each sub-venue row under `ks`, in order, a
        venue of the requester of `req` is created. */
    method CreateVenues(req: OwnerRequest, ks: seq<Id>)
      requires forall i :: 0 <= i < |ks| ==> ks[i] in requestQuadras
      modifies this
      ensures State() == old(State()).(quadras := Appended(old(quadras), old(nextId), Admin.VenuesFor(req, old(requestQuadras), ks)),
                                       nextId := old(nextId) + |ks|)
    {
      ghost var venues := Admin.VenuesFor(req, requestQuadras, ks);
      ghost var n0 := nextId;
      var j := 0;
      while j < |ks|
        invariant 0 <= j <= |ks|
        invariant nextId == n0 + j
        invariant quadras == Appended(old(quadras), n0, venues[..j])
        invariant State() == old(State()).(quadras := quadras, nextId := nextId)
      {
        assert venues[..j + 1][..j] == venues[..j];
        var q := requestQuadras[ks[j]].fields;
        quadras := quadras[nextId := Quadra(q.nome, req.business_address, q.notes, q.tipo, req.user, Admin.OrNone(q.capacidade))];
        nextId := nextId + 1;
        j := j + 1;
      }
      assert venues[..|ks|] == venues;
    }
  }
}
