/** The REST serializers: what each accepts (payloads, read-only and write-only
    fields, validation), what it renders, and the two custom `create` methods
    (UsuarioSerializer.create and OwnerRequestSerializer.create) as functions on the
    tables. */
module Serializers {
  import opened Wrappers
  import opened Models

  /** A JSON scalar in a rendered record. */
  datatype JsonValue = JNull | JBool(b: bool) | JInt(i: int) | JStr(s: string)

  /** A required character field: present and not blank. */
  predicate Given(f: Option<string>) {
    f.Some? && f.value != ""
  }

  /** A ChoiceField value: absent, or one of the choice codes. */
  predicate ChoiceOk<T>(f: Option<string>, parse: string -> Option<T>) {
    f.Some? ==> parse(f.value).Some?
  }

  // ---------------- UsuarioSerializer ----------------

  const UsuarioFieldNames: set<string> := {"id", "username", "email", "first_name", "last_name", "tipo", "password"}
  const UsuarioWriteOnly: set<string> := {"password"}

  /** A registration body; a missing key is None. */
  datatype UsuarioPayload = UsuarioPayload(
    username: Option<string>,
    email: Option<string>,
    first_name: Option<string>,
    last_name: Option<string>,
    tipo: Option<string>,
    password: Option<string>)

  /** validated_data of a registration. */
  datatype UsuarioData = UsuarioData(
    username: string, email: string, first_name: string, last_name: string,
    tipo: Tipo, password: string)

  predicate UsernameTaken(users: map<Id, Usuario>, name: string) {
    exists k :: k in users && users[k].username == name
  }

  /** The fields that fail validation: a missing, blank or already used username,
      an unknown `tipo` code, a missing or blank password. */
  function UsuarioErrors(users: map<Id, Usuario>, p: UsuarioPayload): set<string> {
    (if !Given(p.username) || UsernameTaken(users, p.username.value) then {"username"} else {}) +
    (if !ChoiceOk(p.tipo, ParseTipo) then {"tipo"} else {}) +
    (if !Given(p.password) then {"password"} else {})
  }

  /** is_valid() of a registration: it refuses exactly the bodies with an invalid
      field and reports those fields; validated data hold a fresh non-blank username,
      the given role (or the default) and the given non-blank password. */
  function ValidateUsuario(users: map<Id, Usuario>, p: UsuarioPayload): (r: Result<UsuarioData, Failure>)
    ensures r.Err? <==> UsuarioErrors(users, p) != {}
    ensures r.Err? ==> r.error == Invalid(UsuarioErrors(users, p))
    ensures r.Ok? ==>
      && Some(r.value.username) == p.username && r.value.username != ""
      && !UsernameTaken(users, r.value.username)
      && Some(r.value.password) == p.password && r.value.password != ""
      && (p.tipo.None? ==> r.value.tipo == DefaultTipo)
      && (p.tipo.Some? ==> r.value.tipo.Code() == p.tipo.value)
  {
    var errors := UsuarioErrors(users, p);
    if errors != {} then Err(Invalid(errors))
    else
      Ok(UsuarioData(
        p.username.value, p.email.GetOr(""), p.first_name.GetOr(""), p.last_name.GetOr(""),
        if p.tipo.Some? then ParseTipo(p.tipo.value).value else DefaultTipo,
        p.password.value))
  }

  /** UsuarioSerializer.create: the password is popped from the validated data and
      passed through `setPassword`; the user is built from the remaining fields. */
  function UsuarioRow(v: UsuarioData, setPassword: string -> string): Usuario {
    Usuario(v.username, v.email, v.first_name, v.last_name, v.tipo, Hashed(setPassword(v.password)), false)
  }

  /** The registration endpoint: validate, then insert the new user under a fresh key.
      Returns the new tables and the key or the failure. */
  function RegisterUsuario(t: Tables, p: UsuarioPayload, setPassword: string -> string): (r: (Tables, Result<Id, Failure>))
    ensures r.1.Err? ==> r.0 == t
    ensures r.1.Ok? ==> r.0.usuarios.Keys == t.usuarios.Keys + {r.1.value} && r.1.value < r.0.nextId
    ensures r.1.Ok? && KeysBelowCounter(t) ==> r.1.value !in t.usuarios
  {
    match ValidateUsuario(t.usuarios, p)
    case Err(e) => (t, Err(e))
    case Ok(v) =>
      (t.(usuarios := t.usuarios[t.nextId := UsuarioRow(v, setPassword)], nextId := t.nextId + 1), Ok(t.nextId))
  }

  /** What registration does: it fails exactly when some field is invalid, and then
      changes nothing; otherwise it adds one user whose fields are those given (with
      the model defaults for the missing ones), whose credential is the digest of the
      given password, and who is not staff. No other table changes. */
  lemma RegisterUsuarioEffect(t: Tables, p: UsuarioPayload, setPassword: string -> string)
    ensures var (t', r) := RegisterUsuario(t, p, setPassword);
      && (r.Err? <==> UsuarioErrors(t.usuarios, p) != {})
      && (r.Err? ==> t' == t && r.error == Invalid(UsuarioErrors(t.usuarios, p)))
      && (r.Ok? ==>
            && r.value == t.nextId
            && t' == t.(usuarios := t'.usuarios, nextId := t.nextId + 1)
            && t'.usuarios.Keys == t.usuarios.Keys + {r.value}
            && (forall k :: k in t.usuarios && k != r.value ==> t'.usuarios[k] == t.usuarios[k])
            && var u := t'.usuarios[r.value];
               && Some(u.username) == p.username
               && u.email == p.email.GetOr("")
               && u.first_name == p.first_name.GetOr("")
               && u.last_name == p.last_name.GetOr("")
               && (p.tipo.None? ==> u.tipo == DefaultTipo)
               && (p.tipo.Some? ==> u.tipo.Code() == p.tipo.value)
               && u.password == Hashed(setPassword(p.password.value))
               && !u.is_staff)
  {
  }

  /** A username already in use is refused. */
  lemma RegisterUsuarioRejectsDuplicate(t: Tables, p: UsuarioPayload, setPassword: string -> string, k: Id)
    requires k in t.usuarios && p.username == Some(t.usuarios[k].username)
    ensures var (t', r) := RegisterUsuario(t, p, setPassword);
      r.Err? && r.error.Invalid? && "username" in r.error.fields && t' == t
  {
  }

  /** A password check against the stored credential (check_password). */
  predicate PasswordMatches(u: Usuario, raw: string, setPassword: string -> string) {
    u.password == Hashed(setPassword(raw))
  }

  /** The newly registered user can log in with the password given at registration. */
  lemma RegisteredPasswordMatches(t: Tables, p: UsuarioPayload, setPassword: string -> string)
    ensures var (t', r) := RegisterUsuario(t, p, setPassword);
      r.Ok? ==> r.value in t'.usuarios && PasswordMatches(t'.usuarios[r.value], p.password.value, setPassword)
  {
  }

  lemma RegisterUsuarioConsistent(t: Tables, p: UsuarioPayload, setPassword: string -> string)
    requires Consistent(t)
    ensures Consistent(RegisterUsuario(t, p, setPassword).0)
  {
    match ValidateUsuario(t.usuarios, p)
    case Err(_) =>
    case Ok(v) => InsertUsuarioConsistent(t, UsuarioRow(v, setPassword));
  }

  /** The rendered user: every declared field except the write-only password. */
  function UsuarioRepresentation(key: Id, u: Usuario): (r: map<string, JsonValue>)
    ensures r.Keys == UsuarioFieldNames - UsuarioWriteOnly
    ensures "password" !in r
    ensures r["tipo"] == JStr(u.tipo.Code()) && r["id"] == JInt(key)
  {
    map["id" := JInt(key), "username" := JStr(u.username), "email" := JStr(u.email),
        "first_name" := JStr(u.first_name), "last_name" := JStr(u.last_name),
        "tipo" := JStr(u.tipo.Code())]
  }

  // ---------------- QuadraSerializer ----------------

  const QuadraFieldNames: set<string> := {"id", "nome", "endereco", "descricao", "tipo", "capacidade", "dono", "dono_id"}
  const QuadraWriteOnly: set<string> := {"dono_id"}

  /** A venue body. `dono` is read-only and ignored; the owner may only be given as `dono_id`. */
  datatype QuadraPayload = QuadraPayload(
    nome: Option<string>,
    endereco: Option<string>,
    descricao: Option<string>,
    tipo: Option<string>,
    capacidade: Option<int>,
    dono: Option<string>,
    dono_id: Option<Id>)

  datatype QuadraData = QuadraData(
    nome: string, endereco: string, descricao: string, tipo: string,
    capacidade: Option<int>, dono: Option<Id>)

  /** A missing or blank name; a `dono_id` naming no user. */
  function QuadraErrors(users: map<Id, Usuario>, p: QuadraPayload): set<string> {
    (if !Given(p.nome) then {"nome"} else {}) +
    (if p.dono_id.Some? && p.dono_id.value !in users then {"dono_id"} else {})
  }

  /** is_valid() of a venue: it refuses exactly the bodies with an invalid field;
      validated data hold the given non-blank name, capacity and `dono_id`, which
      names an existing user when given. */
  function ValidateQuadra(users: map<Id, Usuario>, p: QuadraPayload): (r: Result<QuadraData, Failure>)
    ensures r.Err? <==> QuadraErrors(users, p) != {}
    ensures r.Err? ==> r.error == Invalid(QuadraErrors(users, p))
    ensures r.Ok? ==>
      && Some(r.value.nome) == p.nome && r.value.nome != ""
      && r.value.capacidade == p.capacidade
      && r.value.dono == p.dono_id && (r.value.dono.Some? ==> r.value.dono.value in users)
  {
    var errors := QuadraErrors(users, p);
    if errors != {} then Err(Invalid(errors))
    else
      Ok(QuadraData(p.nome.value, p.endereco.GetOr(""), p.descricao.GetOr(""), p.tipo.GetOr(""),
                    p.capacidade, p.dono_id))
  }

  /** The rendered venue: every declared field except the write-only `dono_id`;
      the owner is shown by its display text. */
  function QuadraRepresentation(key: Id, q: Quadra, users: map<Id, Usuario>): (r: map<string, JsonValue>)
    requires q.dono in users
    ensures r.Keys == QuadraFieldNames - QuadraWriteOnly
    ensures r["dono"] == JStr(UsuarioText(users[q.dono]))
  {
    map["id" := JInt(key), "nome" := JStr(q.nome), "endereco" := JStr(q.endereco),
        "descricao" := JStr(q.descricao), "tipo" := JStr(q.tipo),
        "capacidade" := (if q.capacidade.Some? then JInt(q.capacidade.value) else JNull),
        "dono" := JStr(UsuarioText(users[q.dono]))]
  }

  // ---------------- AgendamentoSerializer ----------------

  /** A reservation body. `usuario`, `confirmado` and `criado_em` are read-only and
      ignored. */
  datatype AgendamentoPayload = AgendamentoPayload(
    usuario: Option<string>,
    usuario_id: Option<Id>,
    quadra_id: Option<Id>,
    data: Option<Date>,
    hora: Option<Time>,
    duracao_minutos: Option<int>,
    comprovante: Option<Upload>,
    tipo_pagamento: Option<string>,
    confirmado: Option<bool>,
    criado_em: Option<Timestamp>)

  datatype AgendamentoData = AgendamentoData(
    usuario: Option<Id>, quadra: Id, data: Date, hora: Time,
    duracao_minutos: int, comprovante: Option<Upload>, tipo_pagamento: string)

  /** A `usuario_id` naming no user; a missing `quadra_id` or one naming no venue;
      a missing date or time. */
  function AgendamentoErrors(t: Tables, p: AgendamentoPayload): set<string> {
    (if p.usuario_id.Some? && p.usuario_id.value !in t.usuarios then {"usuario_id"} else {}) +
    (if p.quadra_id.None? || p.quadra_id.value !in t.quadras then {"quadra_id"} else {}) +
    (if p.data.None? then {"data"} else {}) +
    (if p.hora.None? then {"hora"} else {})
  }

  /** is_valid() of a reservation: it refuses exactly the bodies with an invalid
      field; validated data name an existing venue, an existing user when `usuario_id`
      is given, the given date and time, and 60 minutes when no duration is given. */
  function ValidateAgendamento(t: Tables, p: AgendamentoPayload): (r: Result<AgendamentoData, Failure>)
    ensures r.Err? <==> AgendamentoErrors(t, p) != {}
    ensures r.Err? ==> r.error == Invalid(AgendamentoErrors(t, p))
    ensures r.Ok? ==>
      && Some(r.value.quadra) == p.quadra_id && r.value.quadra in t.quadras
      && r.value.usuario == p.usuario_id && (r.value.usuario.Some? ==> r.value.usuario.value in t.usuarios)
      && Some(r.value.data) == p.data && Some(r.value.hora) == p.hora
      && (p.duracao_minutos.None? ==> r.value.duracao_minutos == DefaultDuracaoMinutos)
      && (p.duracao_minutos.Some? ==> r.value.duracao_minutos == p.duracao_minutos.value)
  {
    var errors := AgendamentoErrors(t, p);
    if errors != {} then Err(Invalid(errors))
    else
      Ok(AgendamentoData(p.usuario_id, p.quadra_id.value, p.data.value, p.hora.value,
                         p.duracao_minutos.GetOr(DefaultDuracaoMinutos), p.comprovante,
                         p.tipo_pagamento.GetOr("")))
  }

  // ---------------- OwnerRequestSerializer ----------------

  /** One entry of the nested `quadras` list. */
  datatype SubVenuePayload = SubVenuePayload(
    nome: Option<string>,
    tipo: Option<string>,
    capacidade: Option<int>,
    surface_type: Option<string>,
    pile_height_mm: Option<int>,
    infill_type: Option<string>,
    infill_depth_mm: Option<int>,
    shockpad_present: Option<bool>,
    last_replacement_date: Option<Date>,
    maintenance_frequency: Option<string>,
    surface_condition_rating: Option<int>,
    certifications: Option<string>,
    notes: Option<string>)

  /** The value of the `quadras` key: still a string, a decoded list of sub-venue
      objects, or any other decoded JSON value (a number, an object, null, or a list
      holding something other than objects). */
  datatype QuadrasValue = Text(text: string) | Items(entries: seq<SubVenuePayload>) | OtherJson

  /** An owner-request body. `user`, `status` and `created_at` are read-only and ignored. */
  datatype OwnerRequestPayload = OwnerRequestPayload(
    user: Option<string>,
    business_name: Option<string>,
    business_address: Option<string>,
    contact_phone: Option<string>,
    contact_email: Option<string>,
    description: Option<string>,
    status: Option<string>,
    admin_notes: Option<string>,
    created_at: Option<Timestamp>,
    quadras: Option<QuadrasValue>)

  predicate SubVenueValid(q: SubVenuePayload) {
    Given(q.nome) && ChoiceOk(q.surface_type, ParseSurfaceType)
  }

  /** A validated entry, with the model defaults for the fields it leaves out. */
  function SubVenueOf(q: SubVenuePayload): SubVenueFields
    requires SubVenueValid(q)
  {
    SubVenueFields(
      q.nome.value, q.tipo.GetOr(""), q.capacidade,
      if q.surface_type.Some? then ParseSurfaceType(q.surface_type.value).value else DefaultSurfaceType,
      q.pile_height_mm, q.infill_type.GetOr(""), q.infill_depth_mm,
      q.shockpad_present.GetOr(DefaultShockpadPresent), q.last_replacement_date,
      q.maintenance_frequency.GetOr(""), q.surface_condition_rating,
      q.certifications.GetOr(""), q.notes.GetOr(""))
  }

  /** An entry that leaves `surface_type` out gets "synthetic", one that leaves
      `shockpad_present` out gets no shockpad; the name is kept and every stored
      surface type is one of the two choices. */
  lemma SubVenueDefaults(q: SubVenuePayload)
    requires SubVenueValid(q)
    ensures SubVenueOf(q).nome == q.nome.value
    ensures SubVenueOf(q).surface_type.Code() in {"synthetic", "natural"}
    ensures q.surface_type.None? ==> SubVenueOf(q).surface_type == Synthetic
    ensures q.surface_type.Some? ==> SubVenueOf(q).surface_type.Code() == q.surface_type.value
    ensures q.shockpad_present.None? ==> !SubVenueOf(q).shockpad_present
  {
  }

  /** The nested list is optional; when present it must be a list of valid entries
      (a string or any other value is not a list and fails validation). */
  predicate QuadrasValid(v: Option<QuadrasValue>) {
    v.None? || (v.value.Items? && forall i :: 0 <= i < |v.value.entries| ==> SubVenueValid(v.value.entries[i]))
  }

  function OwnerRequestErrors(p: OwnerRequestPayload): set<string> {
    (if !Given(p.business_name) then {"business_name"} else {}) +
    (if !QuadrasValid(p.quadras) then {"quadras"} else {})
  }

  /** validated_data of an owner request; `quadras` is present only when it was sent. */
  datatype OwnerRequestData = OwnerRequestData(
    business_name: string, business_address: string, contact_phone: string,
    contact_email: string, description: string, admin_notes: string,
    quadras: Option<seq<SubVenueFields>>)

  /** is_valid() of an owner request: it refuses exactly the bodies with a missing or
      blank business name or a `quadras` value that is not a list of valid entries;
      validated data keep the name, and hold one sub-venue per entry, in order, or no
      list when the key was not sent. */
  function ValidateOwnerRequest(p: OwnerRequestPayload): (r: Result<OwnerRequestData, Failure>)
    ensures r.Err? <==> OwnerRequestErrors(p) != {}
    ensures r.Err? ==> r.error == Invalid(OwnerRequestErrors(p))
    ensures r.Ok? ==>
      && Some(r.value.business_name) == p.business_name && r.value.business_name != ""
      && (r.value.quadras.None? <==> p.quadras.None?)
      && (p.quadras.Some? ==>
            && p.quadras.value.Items?
            && |r.value.quadras.value| == |p.quadras.value.entries|
            && forall i :: 0 <= i < |p.quadras.value.entries| ==>
                 SubVenueValid(p.quadras.value.entries[i]) && r.value.quadras.value[i] == SubVenueOf(p.quadras.value.entries[i]))
  {
    var errors := OwnerRequestErrors(p);
    if errors != {} then Err(Invalid(errors))
    else
      Ok(OwnerRequestData(
        p.business_name.value, p.business_address.GetOr(""), p.contact_phone.GetOr(""),
        p.contact_email.GetOr(""), p.description.GetOr(""), p.admin_notes.GetOr(""),
        if p.quadras.None? then None
        else Some(seq(|p.quadras.value.entries|, i requires 0 <= i < |p.quadras.value.entries| =>
                        SubVenueOf(p.quadras.value.entries[i])))))
  }

  /** The sub-venue rows of request `rid` built from `entries`, in order. */
  function SubVenueRows(rid: Id, entries: seq<SubVenueFields>): (rows: seq<OwnerRequestQuadra>)
    ensures |rows| == |entries|
    ensures forall j :: 0 <= j < |entries| ==> rows[j] == OwnerRequestQuadra(rid, entries[j])
  {
    seq(|entries|, i requires 0 <= i < |entries| => OwnerRequestQuadra(rid, entries[i]))
  }

  /** `entries` inserted as sub-venue rows of request `rid`, in order, under
      consecutive fresh keys. */
  function AddSubVenues(t: Tables, rid: Id, entries: seq<SubVenueFields>): (r: Tables)
    ensures r == t.(requestQuadras := r.requestQuadras, nextId := t.nextId + |entries|)
    ensures t.requestQuadras.Keys <= r.requestQuadras.Keys
  {
    AppendedKeys(t.requestQuadras, t.nextId, SubVenueRows(rid, entries));
    t.(requestQuadras := Appended(t.requestQuadras, t.nextId, SubVenueRows(rid, entries)),
       nextId := t.nextId + |entries|)
  }

  /** The new request row of OwnerRequestSerializer.create (defaults for status and
      the creation time the clock gives). */
  function OwnerRequestRow(v: OwnerRequestData, user: Id, now: Timestamp): OwnerRequest {
    OwnerRequest(user, v.business_name, v.business_address, v.contact_phone, v.contact_email,
                 v.description, now, DefaultStatus, v.admin_notes)
  }

  /** OwnerRequestSerializer.create. `savedUser` is the `user` passed to `save`, and
      `contextUser` the authenticated user of the request context, which takes its
      place. Without a user the insertion violates NOT NULL. Otherwise the request is
      inserted, then one sub-venue row per entry of `quadras` (none when the key was
      not sent). */
  function OwnerRequestCreate(t: Tables, v: OwnerRequestData, savedUser: Option<Id>,
                              contextUser: Option<Id>, now: Timestamp): (res: Result<(Tables, Id), Failure>)
    ensures res.Err? <==> contextUser.None? && savedUser.None?
    ensures res.Ok? ==> res.value.1 == t.nextId && res.value.0.nextId == t.nextId + 1 + |v.quadras.GetOr([])|
    ensures res.Ok? ==> t.nextId in res.value.0.ownerRequests
  {
    var user := if contextUser.Some? then contextUser else savedUser;
    if user.None? then Err(Integrity("user_id"))
    else Ok((AddSubVenues(InsertOwnerRequest(t, v, user.value, now), t.nextId, v.quadras.GetOr([])), t.nextId))
  }

  /** The request row inserted under the fresh key. */
  function InsertOwnerRequest(t: Tables, v: OwnerRequestData, user: Id, now: Timestamp): Tables {
    t.(ownerRequests := t.ownerRequests[t.nextId := OwnerRequestRow(v, user, now)], nextId := t.nextId + 1)
  }

  /** Exactly one sub-venue row per entry, each linked to the request and holding the
      entry's fields, in entry order; nothing else in the tables changes. */
  lemma AddSubVenuesRows(t: Tables, rid: Id, entries: seq<SubVenueFields>)
    requires forall k :: k in t.requestQuadras ==> k < t.nextId
    ensures var r := AddSubVenues(t, rid, entries);
      && r == t.(requestQuadras := r.requestQuadras, nextId := t.nextId + |entries|)
      && AppendedAt(t.requestQuadras, r.requestQuadras, t.nextId, SubVenueRows(rid, entries))
  {
    AppendedIsAppendedAt(t.requestQuadras, t.nextId, SubVenueRows(rid, entries));
  }

  /** The sub-venues the request owns afterwards are the ones it owned before and the
      new rows. */
  lemma AddSubVenuesOwned(t: Tables, rid: Id, entries: seq<SubVenueFields>)
    requires forall k :: k in t.requestQuadras ==> k < t.nextId
    ensures SubVenuesOfRequest(AddSubVenues(t, rid, entries).requestQuadras, rid)
         == SubVenuesOfRequest(t.requestQuadras, rid) + KeyRange(t.nextId, |entries|)
  {
    AddSubVenuesRows(t, rid, entries);
    var r := AddSubVenues(t, rid, entries);
    var rows := SubVenueRows(rid, entries);
    forall k | k in KeyRange(t.nextId, |entries|) ensures k in SubVenuesOfRequest(r.requestQuadras, rid) {
      assert r.requestQuadras[t.nextId + (k - t.nextId)] == rows[k - t.nextId];
    }
  }

  /** The request owns exactly |entries| more sub-venues afterwards. */
  lemma AddSubVenuesCount(t: Tables, rid: Id, entries: seq<SubVenueFields>)
    requires forall k :: k in t.requestQuadras ==> k < t.nextId
    ensures |SubVenuesOfRequest(AddSubVenues(t, rid, entries).requestQuadras, rid)|
         == |SubVenuesOfRequest(t.requestQuadras, rid)| + |entries|
  {
    AddSubVenuesOwned(t, rid, entries);
    var before := SubVenuesOfRequest(t.requestQuadras, rid);
    assert before !! KeyRange(t.nextId, |entries|);
    KeyRangeSize(t.nextId, |entries|);
  }

  /** OwnerRequestSerializer.create fails exactly when no user is known, on the NOT
      NULL user column. */
  lemma OwnerRequestCreateFails(t: Tables, v: OwnerRequestData, savedUser: Option<Id>,
                                contextUser: Option<Id>, now: Timestamp)
    ensures var res := OwnerRequestCreate(t, v, savedUser, contextUser, now);
      && (res.Err? <==> contextUser.None? && savedUser.None?)
      && (res.Err? ==> res.error == Integrity("user_id"))
  {
  }

  /** Otherwise the new request, pending and owned by the context user when there is
      one, else by the saved user, takes the fresh key; the sub-venues follow it, and
      nothing else changes. */
  lemma OwnerRequestCreateShape(t: Tables, v: OwnerRequestData, savedUser: Option<Id>,
                                contextUser: Option<Id>, now: Timestamp)
    requires contextUser.Some? || savedUser.Some?
    ensures var res := OwnerRequestCreate(t, v, savedUser, contextUser, now);
      var user := if contextUser.Some? then contextUser.value else savedUser.value;
      && res.Ok?
      && res.value.1 == t.nextId
      && res.value.0 == t.(ownerRequests := t.ownerRequests[t.nextId := OwnerRequestRow(v, user, now)],
                           requestQuadras := res.value.0.requestQuadras,
                           nextId := t.nextId + 1 + |v.quadras.GetOr([])|)
      && OwnerRequestRow(v, user, now).status == Pending
  {
  }

  /** The sub-venue rows, one per entry of `quadras` (none when the key was not sent),
      follow the request under the next keys, in order. */
  lemma OwnerRequestCreateRows(t: Tables, v: OwnerRequestData, savedUser: Option<Id>,
                               contextUser: Option<Id>, now: Timestamp)
    requires forall k :: k in t.requestQuadras ==> k < t.nextId
    requires contextUser.Some? || savedUser.Some?
    ensures var res := OwnerRequestCreate(t, v, savedUser, contextUser, now);
      && res.Ok?
      && AppendedAt(t.requestQuadras, res.value.0.requestQuadras, t.nextId + 1, SubVenueRows(t.nextId, v.quadras.GetOr([])))
  {
    var user := if contextUser.Some? then contextUser else savedUser;
    var t1 := InsertOwnerRequest(t, v, user.value, now);
    AddSubVenuesRows(t1, t.nextId, v.quadras.GetOr([]));
  }

  /** The new request owns exactly the new sub-venue rows, one per entry. */
  lemma OwnerRequestCreateOwned(t: Tables, v: OwnerRequestData, savedUser: Option<Id>,
                                contextUser: Option<Id>, now: Timestamp)
    requires forall k :: k in t.ownerRequests ==> k < t.nextId
    requires forall k :: k in t.requestQuadras ==> k < t.nextId
    requires forall k :: k in t.requestQuadras ==> t.requestQuadras[k].owner_request in t.ownerRequests
    requires contextUser.Some? || savedUser.Some?
    ensures var res := OwnerRequestCreate(t, v, savedUser, contextUser, now);
      var entries := v.quadras.GetOr([]);
      && res.Ok?
      && SubVenuesOfRequest(res.value.0.requestQuadras, t.nextId) == KeyRange(t.nextId + 1, |entries|)
      && |SubVenuesOfRequest(res.value.0.requestQuadras, t.nextId)| == |entries|
  {
    var user := if contextUser.Some? then contextUser else savedUser;
    var rid := t.nextId;
    var entries := v.quadras.GetOr([]);
    var t1 := InsertOwnerRequest(t, v, user.value, now);
    FreshRequestOwnsNothing(t.requestQuadras, t.ownerRequests, rid);
    assert t1.requestQuadras == t.requestQuadras && t1.nextId == rid + 1;
    AddSubVenuesOwned(t1, rid, entries);
    AddSubVenuesCount(t1, rid, entries);
    var after := AddSubVenues(t1, rid, entries).requestQuadras;
    assert SubVenuesOfRequest(after, rid) == {} + KeyRange(rid + 1, |entries|);
    assert OwnerRequestCreate(t, v, savedUser, contextUser, now).value.0.requestQuadras == after;
  }

  /** While every sub-venue points at an existing request, a key above all requests
      owns no sub-venue. */
  lemma FreshRequestOwnsNothing(table: map<Id, OwnerRequestQuadra>, requests: map<Id, OwnerRequest>, rid: Id)
    requires forall k :: k in requests ==> k < rid
    requires forall k :: k in table ==> table[k].owner_request in requests
    ensures SubVenuesOfRequest(table, rid) == {}
  {
    forall k | k in table ensures table[k].owner_request != rid {
      assert table[k].owner_request in requests;
    }
  }

  /** Saving a request for an existing user keeps the tables consistent. */
  lemma OwnerRequestCreateConsistent(t: Tables, v: OwnerRequestData, savedUser: Option<Id>,
                                     contextUser: Option<Id>, now: Timestamp)
    requires Consistent(t)
    requires contextUser.Some? ==> contextUser.value in t.usuarios
    requires contextUser.None? && savedUser.Some? ==> savedUser.value in t.usuarios
    ensures var res := OwnerRequestCreate(t, v, savedUser, contextUser, now);
      res.Ok? ==> Consistent(res.value.0)
  {
    if contextUser.Some? || savedUser.Some? {
      OwnerRequestCreateShape(t, v, savedUser, contextUser, now);
      OwnerRequestCreateRows(t, v, savedUser, contextUser, now);
      var t' := OwnerRequestCreate(t, v, savedUser, contextUser, now).value.0;
      var rows := SubVenueRows(t.nextId, v.quadras.GetOr([]));
      forall k | k in t'.requestQuadras
        ensures t'.requestQuadras[k].owner_request in t'.ownerRequests && k < t'.nextId
      {
        if k !in t.requestQuadras {
          assert t'.requestQuadras[t.nextId + 1 + (k - t.nextId - 1)] == rows[k - t.nextId - 1];
        }
      }
    }
  }
}
