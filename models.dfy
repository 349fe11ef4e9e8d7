/** The booking tables: record shapes, choice fields, defaults, orderings and display
    texts of the six models, the in-memory database they form, its referential integrity
    and the on-delete cascades between the tables. */
module Models {
  import opened Wrappers

  /** Primary keys. All tables draw fresh keys from one counter, so a key is never reused. */
  type Id = nat

  /** Dates, times of day and creation timestamps are opaque ordered values
      (days, seconds and clock ticks); the clock itself is a parameter of every
      operation that stamps a row. */
  type Date = int
  type Time = int
  type Timestamp = int

  /** An uploaded file (payment proof, request image), identified by its name. */
  datatype Upload = Upload(name: string)

  /** Why a write was refused: field validation (the set of offending field names,
      all reported at once) or a NOT NULL column left empty at insertion. */
  datatype Failure = Invalid(fields: set<string>) | Integrity(column: string)

  // ---------- Usuario.tipo ----------

  datatype Tipo = Comum | Associado | Admin {
    /** The stored code of the choice. */
    function Code(): string {
      match this
      case Comum => "comum"
      case Associado => "associado"
      case Admin => "admin"
    }

    /** The human-readable label of the choice (get_tipo_display). */
    function Label(): string {
      match this
      case Comum => "Comum"
      case Associado => "Associado"
      case Admin => "Administrador"
    }
  }

  const DefaultTipo: Tipo := Comum

  /** The choice whose stored code is `code`, if any. */
  function ParseTipo(code: string): (r: Option<Tipo>)
    ensures r.Some? <==> code in {"comum", "associado", "admin"}
    ensures r.Some? ==> r.value.Code() == code
  {
    if code == "comum" then Some(Comum)
    else if code == "associado" then Some(Associado)
    else if code == "admin" then Some(Admin)
    else None
  }

  // ---------- OwnerRequest.status ----------

  datatype Status = Pending | Paid | Approved | Rejected {
    function Code(): string {
      match this
      case Pending => "pending"
      case Paid => "paid"
      case Approved => "approved"
      case Rejected => "rejected"
    }

    function Label(): string {
      match this
      case Pending => "Pendente"
      case Paid => "Pago"
      case Approved => "Aprovado"
      case Rejected => "Rejeitado"
    }
  }

  const DefaultStatus: Status := Pending

  function ParseStatus(code: string): (r: Option<Status>)
    ensures r.Some? <==> code in {"pending", "paid", "approved", "rejected"}
    ensures r.Some? ==> r.value.Code() == code
  {
    if code == "pending" then Some(Pending)
    else if code == "paid" then Some(Paid)
    else if code == "approved" then Some(Approved)
    else if code == "rejected" then Some(Rejected)
    else None
  }

  // ---------- OwnerRequestQuadra.surface_type ----------

  datatype SurfaceType = Synthetic | Natural {
    function Code(): string {
      match this
      case Synthetic => "synthetic"
      case Natural => "natural"
    }

    function Label(): string {
      match this
      case Synthetic => "Sint\U{E9}tica"
      case Natural => "Natural"
    }
  }

  const DefaultSurfaceType: SurfaceType := Synthetic

  function ParseSurfaceType(code: string): (r: Option<SurfaceType>)
    ensures r.Some? <==> code in {"synthetic", "natural"}
    ensures r.Some? ==> r.value.Code() == code
  {
    if code == "synthetic" then Some(Synthetic)
    else if code == "natural" then Some(Natural)
    else None
  }

  /** Decoding the stored code of any choice gives that choice back. */
  lemma ChoiceCodesRoundTrip(t: Tipo, s: Status, f: SurfaceType)
    ensures ParseTipo(t.Code()) == Some(t)
    ensures ParseStatus(s.Code()) == Some(s)
    ensures ParseSurfaceType(f.Code()) == Some(f)
  {
  }

  // ---------- Defaults of the remaining fields ----------

  const DefaultDuracaoMinutos: int := 60
  const DefaultConfirmado: bool := false
  const DefaultShockpadPresent: bool := false

  // ---------- Records ----------

  /** A stored credential: `set_password` stores a digest, never the raw password. */
  datatype Credential = Hashed(digest: string)

  datatype Usuario = Usuario(
    username: string,
    email: string,
    first_name: string,
    last_name: string,
    tipo: Tipo,
    password: Credential,
    is_staff: bool)

  datatype Quadra = Quadra(
    nome: string,
    endereco: string,
    descricao: string,
    tipo: string,
    dono: Id,
    capacidade: Option<int>)

  datatype Agendamento = Agendamento(
    usuario: Id,
    quadra: Id,
    data: Date,
    hora: Time,
    duracao_minutos: int,
    comprovante: Option<Upload>,
    tipo_pagamento: string,
    criado_em: Timestamp,
    confirmado: bool)

  datatype OwnerRequest = OwnerRequest(
    user: Id,
    business_name: string,
    business_address: string,
    contact_phone: string,
    contact_email: string,
    description: string,
    created_at: Timestamp,
    status: Status,
    admin_notes: string)

  /** The descriptive columns of a sub-venue of an owner request. */
  datatype SubVenueFields = SubVenueFields(
    nome: string,
    tipo: string,
    capacidade: Option<int>,
    surface_type: SurfaceType,
    pile_height_mm: Option<int>,
    infill_type: string,
    infill_depth_mm: Option<int>,
    shockpad_present: bool,
    last_replacement_date: Option<Date>,
    maintenance_frequency: string,
    surface_condition_rating: Option<int>,
    certifications: string,
    notes: string)

  /** A sub-venue row: the request it belongs to and its descriptive columns. */
  datatype OwnerRequestQuadra = OwnerRequestQuadra(owner_request: Id, fields: SubVenueFields)

  /** An image may belong to a request, to a sub-venue, to both or to neither. */
  datatype OwnerRequestImage = OwnerRequestImage(
    quadra: Option<Id>,
    owner_request: Option<Id>,
    image: Upload,
    uploaded_at: Timestamp)

  // ---------- Orderings (Meta.ordering) ----------

  /** Descending order on (primary, secondary) sort keys: `ordering = ["-primary",
      "-secondary"]`. */
  predicate DescendingBy(x: (int, int), y: (int, int)) {
    x.0 > y.0 || (x.0 == y.0 && x.1 >= y.1)
  }

  /** Reservations sort on date, then time. */
  function AgendamentoSortKey(a: Agendamento): (int, int) {
    (a.data, a.hora)
  }

  /** Owner requests sort on creation time only. */
  function OwnerRequestSortKey(r: OwnerRequest): (int, int) {
    (r.created_at, 0)
  }

  /** Reservations list newest date first, then latest time first. */
  predicate AgendamentoListedBefore(a: Agendamento, b: Agendamento) {
    a.data > b.data || (a.data == b.data && a.hora >= b.hora)
  }

  /** Owner requests list newest creation first. */
  predicate OwnerRequestListedBefore(a: OwnerRequest, b: OwnerRequest) {
    a.created_at >= b.created_at
  }

  /** Both orderings are the descending order on their sort keys, which is total and
      transitive; reservations tie only on equal date and time. */
  lemma ListingOrdersAreTotalPreorders(a: Agendamento, b: Agendamento, c: Agendamento,
                                       x: OwnerRequest, y: OwnerRequest, z: OwnerRequest)
    ensures AgendamentoListedBefore(a, b) <==> DescendingBy(AgendamentoSortKey(a), AgendamentoSortKey(b))
    ensures OwnerRequestListedBefore(x, y) <==> DescendingBy(OwnerRequestSortKey(x), OwnerRequestSortKey(y))
    ensures AgendamentoListedBefore(a, b) || AgendamentoListedBefore(b, a)
    ensures AgendamentoListedBefore(a, b) && AgendamentoListedBefore(b, c) ==> AgendamentoListedBefore(a, c)
    ensures AgendamentoListedBefore(a, b) && AgendamentoListedBefore(b, a) ==> a.data == b.data && a.hora == b.hora
    ensures OwnerRequestListedBefore(x, y) || OwnerRequestListedBefore(y, x)
    ensures OwnerRequestListedBefore(x, y) && OwnerRequestListedBefore(y, z) ==> OwnerRequestListedBefore(x, z)
  {
  }

  /** `ks` lists the rows of `rows`, each key once, in descending `key` order. */
  ghost predicate IsListing<V>(rows: map<Id, V>, ks: seq<Id>, key: V -> (int, int)) {
    && (forall i, j :: 0 <= i < j < |ks| ==> ks[i] != ks[j])
    && (forall k :: k in ks <==> k in rows)
    && (forall i, j :: 0 <= i < j < |ks| ==> DescendingBy(key(rows[ks[i]]), key(rows[ks[j]])))
  }

  /** A non-empty set of rows has a row listed before all of them. */
  lemma FirstExists<V>(rows: map<Id, V>, keys: set<Id>, key: V -> (int, int))
    requires keys != {} && keys <= rows.Keys
    ensures exists k :: k in keys && forall j :: j in keys ==> DescendingBy(key(rows[k]), key(rows[j]))
    decreases keys
  {
    var x :| x in keys;
    if keys != {x} {
      FirstExists(rows, keys - {x}, key);
      var k :| k in keys - {x} && forall j :: j in keys - {x} ==> DescendingBy(key(rows[k]), key(rows[j]));
      if DescendingBy(key(rows[x]), key(rows[k])) {
        assert forall j :: j in keys ==> DescendingBy(key(rows[x]), key(rows[j]));
      } else {
        assert forall j :: j in keys ==> DescendingBy(key(rows[k]), key(rows[j]));
      }
    } else {
      assert forall j :: j in keys ==> j == x;
    }
  }

  /** The rows with keys in `keys`, each once, in descending `key` order. Rows that tie
      come in an unspecified order, as a database returns them. */
  ghost function Listing<V>(rows: map<Id, V>, keys: set<Id>, key: V -> (int, int)): (ks: seq<Id>)
    requires keys <= rows.Keys
    ensures forall i, j :: 0 <= i < j < |ks| ==> ks[i] != ks[j]
    ensures forall k :: k in ks <==> k in keys
    ensures forall i, j :: 0 <= i < j < |ks| ==> DescendingBy(key(rows[ks[i]]), key(rows[ks[j]]))
    decreases keys
  {
    if keys == {} then []
    else
      FirstExists(rows, keys, key);
      var k :| k in keys && forall j :: j in keys ==> DescendingBy(key(rows[k]), key(rows[j]));
      var rest := Listing(rows, keys - {k}, key);
      ListingCons(rows, keys, k, rest, key);
      [k] + rest
  }

  /** Putting a first row in front of a listing of the others lists them all. */
  lemma ListingCons<V>(rows: map<Id, V>, keys: set<Id>, k: Id, rest: seq<Id>, key: V -> (int, int))
    requires keys <= rows.Keys && k in keys
    requires forall j :: j in keys ==> DescendingBy(key(rows[k]), key(rows[j]))
    requires forall i, j :: 0 <= i < j < |rest| ==> rest[i] != rest[j]
    requires forall j :: j in rest <==> j in keys - {k}
    requires forall i :: 0 <= i < |rest| ==> rest[i] in keys
    requires forall i, j :: 0 <= i < j < |rest| ==> DescendingBy(key(rows[rest[i]]), key(rows[rest[j]]))
    ensures var ks := [k] + rest;
      && (forall i, j :: 0 <= i < j < |ks| ==> ks[i] != ks[j])
      && (forall j :: j in ks <==> j in keys)
      && (forall i, j :: 0 <= i < j < |ks| ==> DescendingBy(key(rows[ks[i]]), key(rows[ks[j]])))
  {
    var ks := [k] + rest;
    assert forall i :: 0 < i < |ks| ==> ks[i] == rest[i - 1] && rest[i - 1] in rest;
  }

  /** Every table has a listing: all its rows, each once, in descending `key` order. */
  ghost function ListingOf<V>(rows: map<Id, V>, key: V -> (int, int)): (ks: seq<Id>)
    ensures IsListing(rows, ks, key)
    ensures |ks| == |rows|
  {
    var ks := Listing(rows, rows.Keys, key);
    DistinctListingSize(ks, rows.Keys);
    ks
  }

  /** A sequence without repetitions that holds exactly the elements of `keys` is as
      long as `keys` is large. */
  lemma {:induction false} DistinctListingSize(ks: seq<Id>, keys: set<Id>)
    requires forall i, j :: 0 <= i < j < |ks| ==> ks[i] != ks[j]
    requires forall k :: k in ks <==> k in keys
    ensures |ks| == |keys|
    decreases ks
  {
    if ks != [] {
      var rest := ks[1..];
      assert forall k :: k in rest <==> k in keys - {ks[0]} by {
        forall k ensures k in rest <==> k in keys - {ks[0]} {
          if k in rest {
            var j :| 0 <= j < |rest| && rest[j] == k;
            assert ks[j + 1] == k;
          }
          if k in keys - {ks[0]} {
            var j :| 0 <= j < |ks| && ks[j] == k;
            assert j != 0 && rest[j - 1] == k;
          }
        }
      }
      DistinctListingSize(rest, keys - {ks[0]});
    }
  }

  // ---------- Display texts (__str__) ----------

  function Digit(d: nat): (c: char)
    requires d < 10
    ensures '0' <= c <= '9' && (c as int) - ('0' as int) == d
  {
    (('0' as int) + d) as char
  }

  predicate AllDigits(s: string) {
    forall i :: 0 <= i < |s| ==> '0' <= s[i] <= '9'
  }

  /** The decimal rendering of a key, as an f-string renders an int. */
  function DecimalText(n: nat): (s: string)
    ensures |s| >= 1 && AllDigits(s)
    ensures |s| > 1 ==> s[0] != '0'
    decreases n
  {
    if n < 10 then [Digit(n)] else DecimalText(n / 10) + [Digit(n % 10)]
  }

  /** The value of a string of decimal digits (the inverse of DecimalText). */
  function DecimalValue(s: string): nat
    requires AllDigits(s)
    decreases |s|
  {
    if |s| == 0 then 0
    else DecimalValue(s[..|s| - 1]) * 10 + ((s[|s| - 1] as int) - ('0' as int))
  }

  /** Displayed keys read back as the key they display. */
  lemma {:induction false} DecimalRoundTrip(n: nat)
    ensures DecimalValue(DecimalText(n)) == n
    decreases n
  {
    if n >= 10 {
      DecimalRoundTrip(n / 10);
      var s := DecimalText(n);
      assert s[..|s| - 1] == DecimalText(n / 10);
    }
  }

  /** A user displays as the username, then the role label in parentheses. */
  function UsuarioText(u: Usuario): string {
    u.username + " (" + u.tipo.Label() + ")"
  }

  /** A request displays as the business name, then the status label in parentheses. */
  function OwnerRequestText(r: OwnerRequest): string {
    r.business_name + " (" + r.status.Label() + ")"
  }

  /** When two "name (label)" texts are equal and the first label is the shorter,
      the opening parenthesis of the first falls inside the second label. */
  lemma ParenthesisInLongerLabel(n1: string, l1: string, n2: string, l2: string)
    requires n1 + " (" + l1 + ")" == n2 + " (" + l2 + ")"
    requires |l1| < |l2|
    ensures '(' in l2
  {
    var s := n1 + " (" + l1 + ")";
    assert s[|n1| + 1] == '(';
    assert s[|n1| + 1] == l2[|n1| + 1 - |n2| - 2];
  }

  /** "name (label)" reads back as its name and its label when neither label holds an
      opening parenthesis: the last "(" of the text starts the label. */
  lemma ParenthesizedReadsBack(n1: string, l1: string, n2: string, l2: string)
    requires '(' !in l1 && '(' !in l2
    requires n1 + " (" + l1 + ")" == n2 + " (" + l2 + ")"
    ensures n1 == n2 && l1 == l2
  {
    var s := n1 + " (" + l1 + ")";
    assert |n1| + |l1| == |n2| + |l2|;
    if |l1| < |l2| {
      ParenthesisInLongerLabel(n1, l1, n2, l2);
      assert false;
    } else if |l2| < |l1| {
      ParenthesisInLongerLabel(n2, l2, n1, l1);
      assert false;
    }
    assert n1 == s[..|n1|] && n2 == s[..|n2|];
    assert l1 == s[|n1| + 2..|s| - 1] && l2 == s[|n2| + 2..|s| - 1];
  }

  /** Two users with the same display text have the same username and role: the role
      labels hold no parenthesis and are pairwise distinct. */
  lemma UsuarioTextReadsBack(u: Usuario, v: Usuario)
    requires UsuarioText(u) == UsuarioText(v)
    ensures u.username == v.username && u.tipo == v.tipo
  {
    assert forall t: Tipo :: '(' !in t.Label() by {
      forall t: Tipo ensures '(' !in t.Label() { match t case Comum => case Associado => case Admin => }
    }
    ParenthesizedReadsBack(u.username, u.tipo.Label(), v.username, v.tipo.Label());
  }

  /** Two requests with the same display text have the same business name and status. */
  lemma OwnerRequestTextReadsBack(r: OwnerRequest, q: OwnerRequest)
    requires OwnerRequestText(r) == OwnerRequestText(q)
    ensures r.business_name == q.business_name && r.status == q.status
  {
    assert forall s: Status :: '(' !in s.Label() by {
      forall s: Status ensures '(' !in s.Label() { match s case Pending => case Paid => case Approved => case Rejected => }
    }
    ParenthesizedReadsBack(r.business_name, r.status.Label(), q.business_name, q.status.Label());
  }

  const SubVenueSeparator: string := " \U{2014} "

  /** A sub-venue displays as its name, a spaced em dash, and its request's business
      name. */
  function OwnerRequestQuadraText(q: OwnerRequestQuadra, request: OwnerRequest): (s: string)
    ensures |s| == |q.fields.nome| + |SubVenueSeparator| + |request.business_name|
    ensures s[..|q.fields.nome|] == q.fields.nome
    ensures s[|q.fields.nome|..|q.fields.nome| + |SubVenueSeparator|] == SubVenueSeparator
    ensures s[|q.fields.nome| + |SubVenueSeparator|..] == request.business_name
  {
    q.fields.nome + SubVenueSeparator + request.business_name
  }

  /** Sub-venues of the same request with the same display text have the same name. */
  lemma OwnerRequestQuadraTextReadsBack(q: OwnerRequestQuadra, q': OwnerRequestQuadra, request: OwnerRequest)
    requires OwnerRequestQuadraText(q, request) == OwnerRequestQuadraText(q', request)
    ensures q.fields.nome == q'.fields.nome
  {
    var s := OwnerRequestQuadraText(q, request);
    assert q.fields.nome == s[..|q.fields.nome|] == q'.fields.nome;
  }

  const NoRequestText: string := "Sem solicita\U{E7}\U{E3}o"

  /** What `OwnerRequestImage.__str__` puts between the key and the business name. */
  const ImageSeparator: string := " - "

  /** "Imagem <key> - <business name of its request>", or the fallback text when the
      image is linked to no request. */
  function ImageText(key: Id, img: OwnerRequestImage, requests: map<Id, OwnerRequest>): (s: string)
    requires img.owner_request.Some? ==> img.owner_request.value in requests
    ensures var digits := DecimalText(key);
            && |s| >= 7 + |digits| + 3
            && s[..7] == "Imagem "
            && AllDigits(s[7..7 + |digits|])
            && DecimalValue(s[7..7 + |digits|]) == key
            && s[7 + |digits|..7 + |digits| + 3] == ImageSeparator
            && s[7 + |digits| + 3..] == (if img.owner_request.Some? then requests[img.owner_request.value].business_name else NoRequestText)
  {
    var digits := DecimalText(key);
    var tail := if img.owner_request.Some? then requests[img.owner_request.value].business_name else NoRequestText;
    var mid := ImageSeparator + tail;
    var rest := digits + mid;
    var s := "Imagem " + rest;
    DecimalRoundTrip(key);
    assert s[..7] == "Imagem " && s[7..] == rest;
    assert rest[..|digits|] == digits && rest[|digits|..] == mid;
    assert s[7..7 + |digits|] == rest[..|digits|];
    assert mid[..3] == ImageSeparator && mid[3..] == tail;
    assert s[7 + |digits|..7 + |digits| + 3] == mid[..3];
    assert s[7 + |digits| + 3..] == mid[3..];
    s
  }

  // ---------- The database ----------

  /** The six tables and the fresh-key counter. */
  datatype Tables = Tables(
    usuarios: map<Id, Usuario>,
    quadras: map<Id, Quadra>,
    agendamentos: map<Id, Agendamento>,
    ownerRequests: map<Id, OwnerRequest>,
    requestQuadras: map<Id, OwnerRequestQuadra>,
    requestImages: map<Id, OwnerRequestImage>,
    nextId: Id)

  /** Every foreign key denotes an existing row. */
  predicate ForeignKeysResolve(t: Tables) {
    && (forall k :: k in t.quadras ==> t.quadras[k].dono in t.usuarios)
    && (forall k :: k in t.agendamentos ==>
          t.agendamentos[k].usuario in t.usuarios && t.agendamentos[k].quadra in t.quadras)
    && (forall k :: k in t.ownerRequests ==> t.ownerRequests[k].user in t.usuarios)
    && (forall k :: k in t.requestQuadras ==> t.requestQuadras[k].owner_request in t.ownerRequests)
    && (forall k :: k in t.requestImages ==>
          (t.requestImages[k].quadra.Some? ==> t.requestImages[k].quadra.value in t.requestQuadras) &&
          (t.requestImages[k].owner_request.Some? ==> t.requestImages[k].owner_request.value in t.ownerRequests))
  }

  /** Every key in use is below the counter, so the counter is always fresh. */
  predicate KeysBelowCounter(t: Tables) {
    && (forall k :: k in t.usuarios ==> k < t.nextId)
    && (forall k :: k in t.quadras ==> k < t.nextId)
    && (forall k :: k in t.agendamentos ==> k < t.nextId)
    && (forall k :: k in t.ownerRequests ==> k < t.nextId)
    && (forall k :: k in t.requestQuadras ==> k < t.nextId)
    && (forall k :: k in t.requestImages ==> k < t.nextId)
  }

  predicate Consistent(t: Tables) {
    ForeignKeysResolve(t) && KeysBelowCounter(t)
  }

  /** A user inserted under the counter, which then moves past it, keeps the tables
      consistent: nothing can refer to the new key yet. */
  lemma InsertUsuarioConsistent(t: Tables, u: Usuario)
    requires Consistent(t)
    ensures Consistent(t.(usuarios := t.usuarios[t.nextId := u], nextId := t.nextId + 1))
  {
  }

  /** A venue inserted under the counter, with an owner that exists, keeps the
      tables consistent. */
  lemma InsertQuadraConsistent(t: Tables, q: Quadra)
    requires Consistent(t) && q.dono in t.usuarios
    ensures Consistent(t.(quadras := t.quadras[t.nextId := q], nextId := t.nextId + 1))
  {
  }

  /** A reservation inserted under the counter, whose user and venue exist, keeps
      the tables consistent. */
  lemma InsertAgendamentoConsistent(t: Tables, a: Agendamento)
    requires Consistent(t) && a.usuario in t.usuarios && a.quadra in t.quadras
    ensures Consistent(t.(agendamentos := t.agendamentos[t.nextId := a], nextId := t.nextId + 1))
  {
  }

  /** The keys of the requests still pending. */
  function PendingRequests(requests: map<Id, OwnerRequest>): set<Id> {
    set k | k in requests && requests[k].status == Pending
  }

  /** The keys of the sub-venue rows that belong to request `rid`. */
  function SubVenuesOfRequest(table: map<Id, OwnerRequestQuadra>, rid: Id): set<Id> {
    set k | k in table && table[k].owner_request == rid
  }

  /** The keys `n`, ..., `n + c - 1` handed out by `c` consecutive insertions. */
  function KeyRange(n: Id, c: nat): (s: set<Id>)
    ensures forall k :: k in s <==> n <= k < n + c
    decreases c
  {
    if c == 0 then {} else KeyRange(n, c - 1) + {n + c - 1}
  }

  lemma {:induction false} KeyRangeSize(n: Id, c: nat)
    ensures |KeyRange(n, c)| == c
    decreases c
  {
    if c > 0 {
      var s := KeyRange(n, c - 1);
      KeyRangeSize(n, c - 1);
      assert n + c - 1 !in s;
      assert KeyRange(n, c) == s + {n + c - 1};
    }
  }

  /** A subset is no larger than its superset. */
  lemma {:induction false} SubsetSize<T>(a: set<T>, b: set<T>)
    requires a <= b
    ensures |a| <= |b|
    decreases b
  {
    if a != {} {
      var x :| x in a;
      SubsetSize(a - {x}, b - {x});
    }
  }

  /** `vs` inserted into `m`, in order, under the consecutive keys `n`, `n + 1`, ... */
  function Appended<V>(m: map<Id, V>, n: Id, vs: seq<V>): map<Id, V>
    decreases |vs|
  {
    if vs == [] then m else Appended(m, n, vs[..|vs| - 1])[n + |vs| - 1 := vs[|vs| - 1]]
  }

  /** Appending adds exactly the keys `n` .. `n + |vs| - 1`. */
  lemma {:induction false} AppendedKeys<V>(m: map<Id, V>, n: Id, vs: seq<V>)
    ensures Appended(m, n, vs).Keys == m.Keys + KeyRange(n, |vs|)
    decreases |vs|
  {
    if vs != [] {
      AppendedKeys(m, n, vs[..|vs| - 1]);
    }
  }

  /** `after` is `before` with `vs` inserted under the keys `n`, `n + 1`, ...: the old
      rows are kept as they were and the new ones appear in order. */
  ghost predicate AppendedAt<V>(before: map<Id, V>, after: map<Id, V>, n: Id, vs: seq<V>) {
    && after.Keys == before.Keys + KeyRange(n, |vs|)
    && (forall k :: k in before ==> k in after && after[k] == before[k])
    && (forall j :: 0 <= j < |vs| ==> n + j in after && after[n + j] == vs[j])
  }

  /** Appending under keys above every old key keeps the old rows and adds the new
      ones in order. */
  lemma {:induction false} AppendedIsAppendedAt<V>(m: map<Id, V>, n: Id, vs: seq<V>)
    requires forall k :: k in m ==> k < n
    ensures AppendedAt(m, Appended(m, n, vs), n, vs)
    decreases |vs|
  {
    if vs != [] {
      var init := vs[..|vs| - 1];
      AppendedIsAppendedAt(m, n, init);
      var prev := Appended(m, n, init);
      assert KeyRange(n, |vs|) == KeyRange(n, |init|) + {n + |init|};
      forall j | 0 <= j < |init| ensures init[j] == vs[j] { }
    }
  }

  // ---------- on_delete=CASCADE ----------

  /** An image goes when its request or its sub-venue goes. */
  predicate ImageLinkedTo(img: OwnerRequestImage, requests: set<Id>, subVenues: set<Id>) {
    (img.owner_request.Some? && img.owner_request.value in requests) ||
    (img.quadra.Some? && img.quadra.value in subVenues)
  }

  /** Deleting an owner request deletes its sub-venues and every image linked to the
      request or to one of those sub-venues; every other row stays as it was. */
  function DeleteOwnerRequest(t: Tables, rid: Id): (r: Tables)
    ensures r.usuarios == t.usuarios && r.quadras == t.quadras && r.agendamentos == t.agendamentos
    ensures r.nextId == t.nextId
    ensures r.ownerRequests == t.ownerRequests - {rid}
    ensures forall k :: k in r.requestQuadras <==> k in t.requestQuadras && t.requestQuadras[k].owner_request != rid
    ensures forall k :: k in r.requestImages <==>
      k in t.requestImages &&
      t.requestImages[k].owner_request != Some(rid) &&
      (t.requestImages[k].quadra.Some? ==>
         t.requestImages[k].quadra.value !in t.requestQuadras ||
         t.requestQuadras[t.requestImages[k].quadra.value].owner_request != rid)
    ensures forall k :: k in r.requestQuadras ==> r.requestQuadras[k] == t.requestQuadras[k]
    ensures forall k :: k in r.requestImages ==> r.requestImages[k] == t.requestImages[k]
  {
    var subs := set k | k in t.requestQuadras && t.requestQuadras[k].owner_request == rid;
    t.(ownerRequests := t.ownerRequests - {rid},
       requestQuadras := t.requestQuadras - subs,
       requestImages := map k | k in t.requestImages && !ImageLinkedTo(t.requestImages[k], {rid}, subs)
                              :: t.requestImages[k])
  }

  lemma DeleteOwnerRequestConsistent(t: Tables, rid: Id)
    requires Consistent(t)
    ensures Consistent(DeleteOwnerRequest(t, rid))
  {
  }

  /** The request, or the sub-venue's request, that an image hangs from belongs to `uid`. */
  predicate ImageOwnedBy(t: Tables, img: OwnerRequestImage, uid: Id) {
    || (img.owner_request.Some? && img.owner_request.value in t.ownerRequests &&
        t.ownerRequests[img.owner_request.value].user == uid)
    || (img.quadra.Some? && img.quadra.value in t.requestQuadras &&
        t.requestQuadras[img.quadra.value].owner_request in t.ownerRequests &&
        t.ownerRequests[t.requestQuadras[img.quadra.value].owner_request].user == uid)
  }

  /** Deleting a user deletes their venues (and every reservation of those venues),
      their reservations and their owner requests (with those requests' sub-venues and
      images). */
  function DeleteUsuario(t: Tables, uid: Id): (r: Tables)
    ensures uid !in r.usuarios && r.nextId == t.nextId
    ensures forall k :: k in r.quadras ==> r.quadras[k].dono != uid
    ensures forall k :: k in r.agendamentos ==> r.agendamentos[k].usuario != uid
    ensures forall k :: k in r.ownerRequests ==> r.ownerRequests[k].user != uid
  {
    var venues := set k | k in t.quadras && t.quadras[k].dono == uid;
    var requests := set k | k in t.ownerRequests && t.ownerRequests[k].user == uid;
    var subs := set k | k in t.requestQuadras && t.requestQuadras[k].owner_request in requests;
    t.(usuarios := t.usuarios - {uid},
       quadras := t.quadras - venues,
       agendamentos := map k | k in t.agendamentos && t.agendamentos[k].usuario != uid &&
                               t.agendamentos[k].quadra !in venues :: t.agendamentos[k],
       ownerRequests := t.ownerRequests - requests,
       requestQuadras := t.requestQuadras - subs,
       requestImages := map k | k in t.requestImages && !ImageLinkedTo(t.requestImages[k], requests, subs)
                              :: t.requestImages[k])
  }

  /** The user goes, with exactly the venues they own and the reservations that are
      theirs or are of one of those venues; the surviving rows are unchanged. */
  lemma DeleteUsuarioVenues(t: Tables, uid: Id)
    ensures var r := DeleteUsuario(t, uid);
      && r.nextId == t.nextId
      && r.usuarios == t.usuarios - {uid}
      && (forall k :: k in r.quadras <==> k in t.quadras && t.quadras[k].dono != uid)
      && (forall k :: k in r.quadras ==> r.quadras[k] == t.quadras[k])
      && (forall k :: k in r.agendamentos <==>
            k in t.agendamentos && t.agendamentos[k].usuario != uid &&
            (t.agendamentos[k].quadra in t.quadras ==> t.quadras[t.agendamentos[k].quadra].dono != uid))
      && (forall k :: k in r.agendamentos ==> r.agendamentos[k] == t.agendamentos[k])
  {
  }

  /** Exactly the user's owner requests go, with the sub-venues of those requests and
      the images hanging from either; the surviving rows are unchanged. */
  lemma DeleteUsuarioRequests(t: Tables, uid: Id)
    ensures var r := DeleteUsuario(t, uid);
      && (forall k :: k in r.ownerRequests <==> k in t.ownerRequests && t.ownerRequests[k].user != uid)
      && (forall k :: k in r.ownerRequests ==> r.ownerRequests[k] == t.ownerRequests[k])
      && (forall k :: k in r.requestQuadras <==>
            k in t.requestQuadras &&
            (t.requestQuadras[k].owner_request in t.ownerRequests ==>
               t.ownerRequests[t.requestQuadras[k].owner_request].user != uid))
      && (forall k :: k in r.requestQuadras ==> r.requestQuadras[k] == t.requestQuadras[k])
      && (forall k :: k in r.requestImages <==> k in t.requestImages && !ImageOwnedBy(t, t.requestImages[k], uid))
      && (forall k :: k in r.requestImages ==> r.requestImages[k] == t.requestImages[k])
  {
  }

  /** The cascade leaves no dangling foreign key behind. */
  lemma DeleteUsuarioConsistent(t: Tables, uid: Id)
    requires Consistent(t)
    ensures Consistent(DeleteUsuario(t, uid))
  {
    DeleteUsuarioKeys(t, uid);
    DeleteUsuarioResolves(t, uid);
  }

  lemma DeleteUsuarioKeys(t: Tables, uid: Id)
    requires KeysBelowCounter(t)
    ensures KeysBelowCounter(DeleteUsuario(t, uid))
  {
    DeleteUsuarioVenues(t, uid);
    DeleteUsuarioRequests(t, uid);
  }

  lemma DeleteUsuarioResolves(t: Tables, uid: Id)
    requires ForeignKeysResolve(t)
    ensures ForeignKeysResolve(DeleteUsuario(t, uid))
  {
    DeleteUsuarioVenues(t, uid);
    DeleteUsuarioRequests(t, uid);
  }
}
