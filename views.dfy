/** The API views: venue and reservation creation (perform_create), role-scoped
    reservation visibility (get_queryset), owner-request submission with its JSON
    pre-parse and image attachment, and the staff counters endpoint. */
module Views {
  import opened Wrappers
  import opened Models
  import opened Serializers

  // ---------------- QuadraViewSet ----------------

  function QuadraRow(v: QuadraData, dono: Id): Quadra {
    Quadra(v.nome, v.endereco, v.descricao, v.tipo, dono, v.capacidade)
  }

  /** POST of a venue: validate, then perform_create. An authenticated caller is saved
      as the owner; otherwise the owner comes from `dono_id`, and without one the NOT
      NULL owner column refuses the row. */
  function CreateQuadra(t: Tables, p: QuadraPayload, caller: Option<Id>): (r: (Tables, Result<Id, Failure>))
    ensures r.1.Err? ==> r.0 == t
    ensures r.1.Ok? ==> r.0.quadras.Keys == t.quadras.Keys + {r.1.value} && r.1.value < r.0.nextId
    ensures r.1.Ok? && KeysBelowCounter(t) ==> r.1.value !in t.quadras
  {
    match ValidateQuadra(t.usuarios, p)
    case Err(e) => (t, Err(e))
    case Ok(v) =>
      var dono := if caller.Some? then caller else v.dono;
      if dono.None? then (t, Err(Integrity("dono_id")))
      else (t.(quadras := t.quadras[t.nextId := QuadraRow(v, dono.value)], nextId := t.nextId + 1), Ok(t.nextId))
  }

  /** A venue is created exactly when the body is valid and some owner is known; the
      owner is the authenticated caller whatever `dono_id` says, else `dono_id`. A
      failure changes nothing, a success adds only that venue. */
  lemma CreateQuadraEffect(t: Tables, p: QuadraPayload, caller: Option<Id>)
    ensures var (t', r) := CreateQuadra(t, p, caller);
      && (r.Ok? <==> QuadraErrors(t.usuarios, p) == {} && (caller.Some? || p.dono_id.Some?))
      && (r.Err? ==> t' == t)
      && (r.Ok? ==>
            && r.value == t.nextId
            && t' == t.(quadras := t.quadras[r.value := t'.quadras[r.value]], nextId := t.nextId + 1)
            && var q := t'.quadras[r.value];
               && q.dono == (if caller.Some? then caller.value else p.dono_id.value)
               && Some(q.nome) == p.nome
               && q.endereco == p.endereco.GetOr("")
               && q.descricao == p.descricao.GetOr("")
               && q.tipo == p.tipo.GetOr("")
               && q.capacidade == p.capacidade)
  {
  }

  /** The read-only `dono` of the body has no effect. */
  lemma CreateQuadraIgnoresReadOnly(t: Tables, p: QuadraPayload, caller: Option<Id>, shown: Option<string>)
    ensures CreateQuadra(t, p.(dono := shown), caller) == CreateQuadra(t, p, caller)
  {
  }

  lemma CreateQuadraConsistent(t: Tables, p: QuadraPayload, caller: Option<Id>)
    requires Consistent(t) && (caller.Some? ==> caller.value in t.usuarios)
    ensures Consistent(CreateQuadra(t, p, caller).0)
  {
    match ValidateQuadra(t.usuarios, p)
    case Err(_) =>
    case Ok(v) =>
      var dono := if caller.Some? then caller else v.dono;
      if dono.Some? {
        assert dono.value in t.usuarios;
        InsertQuadraConsistent(t, QuadraRow(v, dono.value));
      }
  }

  // ---------------- AgendamentoViewSet ----------------

  function AgendamentoRow(v: AgendamentoData, usuario: Id, now: Timestamp): Agendamento {
    Agendamento(usuario, v.quadra, v.data, v.hora, v.duracao_minutos, v.comprovante,
                v.tipo_pagamento, now, DefaultConfirmado)
  }

  /** POST of a reservation: validate, then perform_create. An authenticated caller is
      saved as the reservation's user; otherwise the user comes from `usuario_id`, and
      without one the NOT NULL user column refuses the row. */
  function CreateAgendamento(t: Tables, p: AgendamentoPayload, caller: Option<Id>, now: Timestamp): (r: (Tables, Result<Id, Failure>))
    ensures r.1.Err? ==> r.0 == t
    ensures r.1.Ok? ==> r.0.agendamentos.Keys == t.agendamentos.Keys + {r.1.value} && r.1.value < r.0.nextId
    ensures r.1.Ok? && KeysBelowCounter(t) ==> r.1.value !in t.agendamentos
  {
    match ValidateAgendamento(t, p)
    case Err(e) => (t, Err(e))
    case Ok(v) =>
      var usuario := if caller.Some? then caller else v.usuario;
      if usuario.None? then (t, Err(Integrity("usuario_id")))
      else (t.(agendamentos := t.agendamentos[t.nextId := AgendamentoRow(v, usuario.value, now)], nextId := t.nextId + 1), Ok(t.nextId))
  }

  /** A reservation is created exactly when the body is valid and some user is known;
      its user is the authenticated caller whatever `usuario_id` says; it is never
      confirmed at creation, lasts 60 minutes unless told otherwise, and is stamped
      with the clock. A failure changes nothing, a success adds only that row. */
  lemma CreateAgendamentoEffect(t: Tables, p: AgendamentoPayload, caller: Option<Id>, now: Timestamp)
    ensures var (t', r) := CreateAgendamento(t, p, caller, now);
      && (r.Ok? <==> AgendamentoErrors(t, p) == {} && (caller.Some? || p.usuario_id.Some?))
      && (r.Err? ==> t' == t)
      && (r.Ok? ==>
            && r.value == t.nextId
            && t' == t.(agendamentos := t.agendamentos[r.value := t'.agendamentos[r.value]], nextId := t.nextId + 1)
            && var a := t'.agendamentos[r.value];
               && a.usuario == (if caller.Some? then caller.value else p.usuario_id.value)
               && Some(a.quadra) == p.quadra_id
               && Some(a.data) == p.data && Some(a.hora) == p.hora
               && a.duracao_minutos == p.duracao_minutos.GetOr(60)
               && a.comprovante == p.comprovante
               && a.tipo_pagamento == p.tipo_pagamento.GetOr("")
               && a.criado_em == now
               && !a.confirmado)
  {
  }

  /** The read-only `usuario`, `confirmado` and `criado_em` of the body have no effect. */
  lemma CreateAgendamentoIgnoresReadOnly(t: Tables, p: AgendamentoPayload, caller: Option<Id>, now: Timestamp,
                                         shown: Option<string>, confirmed: Option<bool>, stamp: Option<Timestamp>)
    ensures CreateAgendamento(t, p.(usuario := shown, confirmado := confirmed, criado_em := stamp), caller, now)
         == CreateAgendamento(t, p, caller, now)
  {
  }

  lemma CreateAgendamentoConsistent(t: Tables, p: AgendamentoPayload, caller: Option<Id>, now: Timestamp)
    requires Consistent(t) && (caller.Some? ==> caller.value in t.usuarios)
    ensures Consistent(CreateAgendamento(t, p, caller, now).0)
  {
    match ValidateAgendamento(t, p)
    case Err(_) =>
    case Ok(v) =>
      var usuario := if caller.Some? then caller else v.usuario;
      if usuario.Some? {
        assert usuario.value in t.usuarios && v.quadra in t.quadras;
        InsertAgendamentoConsistent(t, AgendamentoRow(v, usuario.value, now));
      }
  }

  /** get_queryset of the reservations: none for an anonymous caller, all of them for
      staff, and exactly the caller's own for everybody else. */
  function VisibleAgendamentos(t: Tables, caller: Option<Id>): (r: map<Id, Agendamento>)
    requires caller.Some? ==> caller.value in t.usuarios
    ensures forall k :: k in r ==> k in t.agendamentos && r[k] == t.agendamentos[k]
    ensures caller.None? ==> r == map[]
    ensures caller.Some? && t.usuarios[caller.value].is_staff ==> r == t.agendamentos
    ensures caller.Some? && !t.usuarios[caller.value].is_staff ==>
      forall k :: k in r <==> k in t.agendamentos && t.agendamentos[k].usuario == caller.value
  {
    if caller.None? then map[]
    else if t.usuarios[caller.value].is_staff then t.agendamentos
    else map k | k in t.agendamentos && t.agendamentos[k].usuario == caller.value :: t.agendamentos[k]
  }

  /** The GET listing of reservations: the visible ones, each once, newest date first
      and latest time first within a date (`Meta.ordering`). */
  ghost function ListAgendamentos(t: Tables, caller: Option<Id>): (ks: seq<Id>)
    requires caller.Some? ==> caller.value in t.usuarios
    ensures IsListing(VisibleAgendamentos(t, caller), ks, AgendamentoSortKey)
    ensures |ks| == |VisibleAgendamentos(t, caller)|
    ensures forall i :: 0 <= i < |ks| ==> ks[i] in t.agendamentos
    ensures forall i, j :: 0 <= i < j < |ks| ==> AgendamentoListedBefore(t.agendamentos[ks[i]], t.agendamentos[ks[j]])
  {
    ListingOf(VisibleAgendamentos(t, caller), AgendamentoSortKey)
  }

  /** A reservation made by an authenticated caller is in that caller's own listing
      afterwards, whatever `usuario_id` the body named. */
  lemma CreatedAgendamentoVisibleToCaller(t: Tables, p: AgendamentoPayload, caller: Id, now: Timestamp)
    requires caller in t.usuarios
    ensures var (t', r) := CreateAgendamento(t, p, Some(caller), now);
      r.Ok? ==> caller in t'.usuarios && r.value in VisibleAgendamentos(t', Some(caller))
                && r.value in ListAgendamentos(t', Some(caller))
  {
  }

  // ---------------- OwnerRequestListCreateView ----------------

  /** The GET listing of owner requests: all of them, each once, newest first. */
  ghost function ListOwnerRequests(t: Tables): (ks: seq<Id>)
    ensures IsListing(t.ownerRequests, ks, OwnerRequestSortKey)
    ensures |ks| == |t.ownerRequests|
    ensures forall i, j :: 0 <= i < j < |ks| ==> OwnerRequestListedBefore(t.ownerRequests[ks[i]], t.ownerRequests[ks[j]])
  {
    ListingOf(t.ownerRequests, OwnerRequestSortKey)
  }

  /** The pre-parse of `quadras`: a non-empty string is replaced by its decoding when
      `loads` decodes it; a string that fails to decode, an empty string, a missing key
      and any non-string value are left as they are. Nothing else in the body changes. */
  function PreParseQuadras(p: OwnerRequestPayload, loads: string -> Option<QuadrasValue>): (r: OwnerRequestPayload)
    ensures r == p.(quadras := r.quadras)
    ensures r.quadras != p.quadras ==>
      && p.quadras.Some? && p.quadras.value.Text? && p.quadras.value.text != ""
      && r.quadras.Some? && loads(p.quadras.value.text) == Some(r.quadras.value)
    ensures (p.quadras.Some? && p.quadras.value.Text? && p.quadras.value.text != "" &&
             loads(p.quadras.value.text).Some?) ==> r.quadras == loads(p.quadras.value.text)
  {
    match p.quadras
    case Some(Text(s)) =>
      if s != "" then
        match loads(s)
        case Some(parsed) => p.(quadras := Some(parsed))
        case None => p
      else p
    case _ => p
  }

  /** One image row per uploaded file, linked to request `rid` only. */
  function ImageRows(rid: Id, files: seq<Upload>, now: Timestamp): (rows: seq<OwnerRequestImage>)
    ensures |rows| == |files|
    ensures forall j :: 0 <= j < |files| ==> rows[j] == OwnerRequestImage(None, Some(rid), files[j], now)
  {
    seq(|files|, i requires 0 <= i < |files| => OwnerRequestImage(None, Some(rid), files[i], now))
  }

  /** The uploaded files inserted as images of `rid`, in upload order. */
  function AttachImages(t: Tables, rid: Id, files: seq<Upload>, now: Timestamp): (r: Tables)
    ensures r == t.(requestImages := r.requestImages, nextId := t.nextId + |files|)
    ensures t.requestImages.Keys <= r.requestImages.Keys
  {
    AppendedKeys(t.requestImages, t.nextId, ImageRows(rid, files, now));
    t.(requestImages := Appended(t.requestImages, t.nextId, ImageRows(rid, files, now)),
       nextId := t.nextId + |files|)
  }

  /** Exactly one image row per file, linked to the request and to no sub-venue, in
      upload order; nothing else changes. */
  lemma AttachImagesEffect(t: Tables, rid: Id, files: seq<Upload>, now: Timestamp)
    requires forall k :: k in t.requestImages ==> k < t.nextId
    ensures var r := AttachImages(t, rid, files, now);
      && r == t.(requestImages := r.requestImages, nextId := t.nextId + |files|)
      && AppendedAt(t.requestImages, r.requestImages, t.nextId, ImageRows(rid, files, now))
  {
    AppendedIsAppendedAt(t.requestImages, t.nextId, ImageRows(rid, files, now));
  }

  /** Attaching images to an existing request keeps the tables consistent. */
  lemma AttachImagesConsistent(t: Tables, rid: Id, files: seq<Upload>, now: Timestamp)
    requires Consistent(t) && rid in t.ownerRequests
    ensures Consistent(AttachImages(t, rid, files, now))
  {
    AttachImagesEffect(t, rid, files, now);
    var t' := AttachImages(t, rid, files, now);
    var rows := ImageRows(rid, files, now);
    forall k | k in t'.requestImages
      ensures (t'.requestImages[k].quadra.None? && t'.requestImages[k].owner_request == Some(rid)) || k in t.requestImages
      ensures k < t'.nextId
    {
      if k !in t.requestImages {
        assert t'.requestImages[t.nextId + (k - t.nextId)] == rows[k - t.nextId];
      }
    }
  }

  /** The body of an owner-request POST, by content type. A JSON body is a document
      and carries no files (`request.FILES` is empty). A multipart body is a form: the
      nested `quadras` serializer reads a form only through indexed keys
      (`quadras[0]nome`, ...), which this model does not carry, so a plain `quadras`
      field gives no entries there, pre-parsed or not; `files` are its `images`. */
  datatype Body = Json(payload: OwnerRequestPayload) | Multipart(payload: OwnerRequestPayload, files: seq<Upload>)

  /** What the serializer validates: the pre-parsed body, in which a multipart form
      shows no `quadras` list. */
  function SerializerInput(b: Body, loads: string -> Option<QuadrasValue>): (r: OwnerRequestPayload)
    ensures r == b.payload.(quadras := r.quadras)
    ensures b.Multipart? ==> r.quadras.None?
    ensures b.Json? ==> r == PreParseQuadras(b.payload, loads)
  {
    var data := PreParseQuadras(b.payload, loads);
    if b.Multipart? then data.(quadras := None) else data
  }

  /** The files in `request.FILES.getlist("images")`. */
  function Uploads(b: Body): (files: seq<Upload>)
    ensures b.Json? ==> files == []
    ensures b.Multipart? ==> files == b.files
  {
    if b.Multipart? then b.files else []
  }

  /** POST of an owner request: pre-parse, validate (raising before anything is saved),
      save through OwnerRequestSerializer.create with the caller as user, then attach
      one image per uploaded file. */
  function SubmitOwnerRequest(t: Tables, b: Body, caller: Option<Id>,
                              loads: string -> Option<QuadrasValue>, now: Timestamp): (r: (Tables, Result<Id, Failure>))
    ensures r.1.Err? ==> r.0 == t
    ensures r.1.Ok? ==> r.1.value == t.nextId && r.0.ownerRequests.Keys == t.ownerRequests.Keys + {t.nextId}
    ensures r.1.Ok? ==> r.0.nextId >= t.nextId + 1 + |Uploads(b)|
  {
    match ValidateOwnerRequest(SerializerInput(b, loads))
    case Err(e) => (t, Err(e))
    case Ok(v) =>
      match OwnerRequestCreate(t, v, caller, caller, now)
      case Err(e) => (t, Err(e))
      case Ok(created) => (AttachImages(created.0, created.1, Uploads(b), now), Ok(created.1))
  }

  /** Submission fails exactly when the validated body is invalid or nobody is logged
      in, and a failed submission creates nothing. For JSON the `quadras` error comes
      from the pre-parsed value; a multipart form fails only on `business_name`. */
  lemma SubmitOwnerRequestFailure(t: Tables, b: Body, caller: Option<Id>,
                                  loads: string -> Option<QuadrasValue>, now: Timestamp)
    ensures var (t', r) := SubmitOwnerRequest(t, b, caller, loads, now);
      && (r.Err? <==> OwnerRequestErrors(SerializerInput(b, loads)) != {} || caller.None?)
      && (b.Json? ==> (r.Err? <==> OwnerRequestErrors(PreParseQuadras(b.payload, loads)) != {} || caller.None?))
      && (b.Multipart? ==> (r.Err? <==> !Given(b.payload.business_name) || caller.None?))
      && (r.Err? ==> t' == t)
  {
  }

  /** The entries that a successful submission turns into sub-venues: those of the
      pre-parsed JSON list, or none when the key was not sent or the body is a form. */
  function SubmittedEntries(b: Body, loads: string -> Option<QuadrasValue>): (entries: seq<SubVenueFields>)
    requires OwnerRequestErrors(SerializerInput(b, loads)) == {}
    ensures b.Multipart? || b.payload.quadras.None? ==> entries == []
    ensures b.Json? && PreParseQuadras(b.payload, loads).quadras.Some? ==>
      var items := PreParseQuadras(b.payload, loads).quadras.value.entries;
      |entries| == |items| && forall j :: 0 <= j < |items| ==> entries[j] == SubVenueOf(items[j])
  {
    ValidateOwnerRequest(SerializerInput(b, loads)).value.quadras.GetOr([])
  }

  /** A successful submission by `caller` adds one request under the fresh key, owned
      by the caller and pending whatever the body said, stamped with the clock and
      copying the business fields; users, venues and reservations do not change. */
  lemma SubmitOwnerRequestEffect(t: Tables, b: Body, caller: Id,
                                 loads: string -> Option<QuadrasValue>, now: Timestamp)
    requires OwnerRequestErrors(SerializerInput(b, loads)) == {}
    ensures var (t', r) := SubmitOwnerRequest(t, b, Some(caller), loads, now);
      var p := b.payload;
      && r == Ok(t.nextId)
      && t'.usuarios == t.usuarios && t'.quadras == t.quadras && t'.agendamentos == t.agendamentos
      && t'.ownerRequests == t.ownerRequests[t.nextId := OwnerRequest(
           caller, p.business_name.value, p.business_address.GetOr(""), p.contact_phone.GetOr(""),
           p.contact_email.GetOr(""), p.description.GetOr(""), now, Pending, p.admin_notes.GetOr(""))]
  {
    var v := ValidateOwnerRequest(SerializerInput(b, loads)).value;
    OwnerRequestCreateShape(t, v, Some(caller), Some(caller), now);
  }

  /** ... then one sub-venue row per submitted entry, in order under the next keys, and
      they are exactly the sub-venues of the new request ... */
  lemma SubmitOwnerRequestSubVenues(t: Tables, b: Body, caller: Id,
                                    loads: string -> Option<QuadrasValue>, now: Timestamp)
    requires forall k :: k in t.ownerRequests ==> k < t.nextId
    requires forall k :: k in t.requestQuadras ==> k < t.nextId
    requires forall k :: k in t.requestQuadras ==> t.requestQuadras[k].owner_request in t.ownerRequests
    requires OwnerRequestErrors(SerializerInput(b, loads)) == {}
    ensures var t' := SubmitOwnerRequest(t, b, Some(caller), loads, now).0;
      var entries := SubmittedEntries(b, loads);
      && AppendedAt(t.requestQuadras, t'.requestQuadras, t.nextId + 1, SubVenueRows(t.nextId, entries))
      && SubVenuesOfRequest(t'.requestQuadras, t.nextId) == KeyRange(t.nextId + 1, |entries|)
  {
    var v := ValidateOwnerRequest(SerializerInput(b, loads)).value;
    OwnerRequestCreateShape(t, v, Some(caller), Some(caller), now);
    OwnerRequestCreateRows(t, v, Some(caller), Some(caller), now);
    OwnerRequestCreateOwned(t, v, Some(caller), Some(caller), now);
  }

  /** A valid submission by a logged-in caller is OwnerRequestSerializer.create
      followed by the image attachment. */
  lemma SubmitOwnerRequestSteps(t: Tables, b: Body, caller: Id,
                                loads: string -> Option<QuadrasValue>, now: Timestamp)
    requires OwnerRequestErrors(SerializerInput(b, loads)) == {}
    ensures var v := ValidateOwnerRequest(SerializerInput(b, loads)).value;
      var created := OwnerRequestCreate(t, v, Some(caller), Some(caller), now);
      && created.Ok?
      && SubmitOwnerRequest(t, b, Some(caller), loads, now)
         == (AttachImages(created.value.0, created.value.1, Uploads(b), now), Ok(created.value.1))
  {
  }

  /** Images attached after OwnerRequestSerializer.create follow the request and its
      sub-venues. */
  lemma CreateThenAttachImages(t: Tables, v: OwnerRequestData, caller: Id, files: seq<Upload>, now: Timestamp)
    requires forall k :: k in t.requestImages ==> k < t.nextId
    ensures var created := OwnerRequestCreate(t, v, Some(caller), Some(caller), now);
      && created.Ok?
      && var r := AttachImages(created.value.0, created.value.1, files, now);
      && AppendedAt(t.requestImages, r.requestImages, t.nextId + 1 + |v.quadras.GetOr([])|, ImageRows(t.nextId, files, now))
      && r.nextId == t.nextId + 1 + |v.quadras.GetOr([])| + |files|
  {
    OwnerRequestCreateShape(t, v, Some(caller), Some(caller), now);
    var created := OwnerRequestCreate(t, v, Some(caller), Some(caller), now).value;
    AttachImagesEffect(created.0, created.1, files, now);
  }

  /** ... then one image per uploaded file, in order under the keys after those: none
      for a JSON body. */
  lemma SubmitOwnerRequestImages(t: Tables, b: Body, caller: Id,
                                 loads: string -> Option<QuadrasValue>, now: Timestamp)
    requires forall k :: k in t.requestImages ==> k < t.nextId
    requires OwnerRequestErrors(SerializerInput(b, loads)) == {}
    ensures var t' := SubmitOwnerRequest(t, b, Some(caller), loads, now).0;
      var entries := SubmittedEntries(b, loads);
      && AppendedAt(t.requestImages, t'.requestImages, t.nextId + 1 + |entries|, ImageRows(t.nextId, Uploads(b), now))
      && t'.nextId == t.nextId + 1 + |entries| + |Uploads(b)|
      && (b.Json? ==> t'.requestImages == t.requestImages)
  {
    var v := ValidateOwnerRequest(SerializerInput(b, loads)).value;
    SubmitOwnerRequestSteps(t, b, caller, loads, now);
    CreateThenAttachImages(t, v, caller, Uploads(b), now);
  }

  /** With no `quadras` key in the body, or with a multipart form whatever its
      `quadras` field holds, a submission creates no sub-venue. */
  lemma SubmitWithoutQuadrasCreatesNone(t: Tables, b: Body, caller: Id,
                                        loads: string -> Option<QuadrasValue>, now: Timestamp)
    requires Consistent(t) && (b.payload.quadras.None? || b.Multipart?) && Given(b.payload.business_name)
    ensures var (t', r) := SubmitOwnerRequest(t, b, Some(caller), loads, now);
      && r == Ok(t.nextId)
      && SubVenuesOfRequest(t'.requestQuadras, t.nextId) == {}
      && t'.requestQuadras == t.requestQuadras
  {
    SubmitOwnerRequestEffect(t, b, caller, loads, now);
    SubmitOwnerRequestSubVenues(t, b, caller, loads, now);
  }

  /** The read-only `user`, `status` and `created_at` of the body have no effect. */
  lemma SubmitOwnerRequestIgnoresReadOnly(t: Tables, b: Body, caller: Option<Id>,
                                          loads: string -> Option<QuadrasValue>, now: Timestamp,
                                          shown: Option<string>, status: Option<string>, stamp: Option<Timestamp>)
    ensures var b' := b.(payload := b.payload.(user := shown, status := status, created_at := stamp));
      SubmitOwnerRequest(t, b', caller, loads, now) == SubmitOwnerRequest(t, b, caller, loads, now)
  {
    var b' := b.(payload := b.payload.(user := shown, status := status, created_at := stamp));
    assert PreParseQuadras(b'.payload, loads) == PreParseQuadras(b.payload, loads).(user := shown, status := status, created_at := stamp);
    assert SerializerInput(b', loads) == SerializerInput(b, loads).(user := shown, status := status, created_at := stamp);
  }

  lemma SubmitOwnerRequestConsistent(t: Tables, b: Body, caller: Option<Id>,
                                     loads: string -> Option<QuadrasValue>, now: Timestamp)
    requires Consistent(t) && (caller.Some? ==> caller.value in t.usuarios)
    ensures Consistent(SubmitOwnerRequest(t, b, caller, loads, now).0)
  {
    var v := ValidateOwnerRequest(SerializerInput(b, loads));
    if v.Ok? && caller.Some? {
      OwnerRequestCreateConsistent(t, v.value, caller, caller, now);
      OwnerRequestCreateShape(t, v.value, caller, caller, now);
      var created := OwnerRequestCreate(t, v.value, caller, caller, now).value;
      AttachImagesConsistent(created.0, created.1, Uploads(b), now);
    }
  }

  // ---------------- admin_counts ----------------

  datatype CountsResponse = CountsBody(body: map<string, nat>) | ServerError(status: nat, detail: string)

  const CountKeys: set<string> := {"quadras", "agendamentos", "solicitacoes", "usuarios", "solicitacoes_pendentes"}

  /** The staff counters: the five table counts, or status 500 with the exception's
      message when counting raised `fault`. */
  function AdminCounts(t: Tables, fault: Option<string>): (r: CountsResponse)
    ensures fault.Some? ==> r == ServerError(500, fault.value)
    ensures fault.None? ==>
      && r.CountsBody? && r.body.Keys == CountKeys
      && r.body["quadras"] == |t.quadras|
      && r.body["agendamentos"] == |t.agendamentos|
      && r.body["solicitacoes"] == |t.ownerRequests|
      && r.body["usuarios"] == |t.usuarios|
      && r.body["solicitacoes_pendentes"] == |PendingRequests(t.ownerRequests)|
      && r.body["solicitacoes_pendentes"] <= r.body["solicitacoes"]
  {
    if fault.Some? then ServerError(500, fault.value)
    else
      var pending := PendingRequests(t.ownerRequests);
      SubsetSize(pending, t.ownerRequests.Keys);
      CountsBody(map["quadras" := |t.quadras|, "agendamentos" := |t.agendamentos|,
                     "solicitacoes" := |t.ownerRequests|, "usuarios" := |t.usuarios|,
                     "solicitacoes_pendentes" := |pending|])
  }
}
