# Court booking backend — a verified model

This project models the core of a Django booking backend. The backend keeps six tables:

- users (`Usuario`, with a role `tipo`);
- venues (`Quadra`);
- reservations (`Agendamento`);
- owner requests (`OwnerRequest`), in which prospective venue owners describe their business;
- the sub-venues of a request (`OwnerRequestQuadra`);
- the images of a request (`OwnerRequestImage`).

The model covers these parts of the backend:

- **Record types and defaults.** The choice fields with their codes and labels, the field defaults, the listing orders with the ordered listings they give, and the display texts, which read back as the fields they show. The on-delete cascades are pure functions on the tables (`models.dfy`).
- **Serializers.** User registration, which removes the raw password and stores only the output of `set_password`. The read-only and write-only fields of the venue, reservation and owner-request serializers. Owner-request creation, which inserts the request and then one sub-venue row per nested entry (`serializers.dfy`).
- **Views.** Venue and reservation creation, where an authenticated caller always becomes the owner. Role-scoped reservation visibility and its ordered listing. Owner-request submission of a JSON or a multipart body: the pre-parse of `quadras`, validation before anything is saved, the nested creation, and one image row per uploaded file. The staff counters endpoint (`views.dfy`).
- **Admin actions.** `mark_paid`, `reject_request` and `approve_request`. Approval marks each selected request approved, promotes its requester to `tipo = "admin"`, and creates one venue per sub-venue (`admin.dfy`).
- **The dashboard template tag.** It builds four counters in mapping order and falls back to 0 for a model whose lookup or count raises (`admin_extras.dfy`).

Every write is specified twice:

- as a function from the tables before (`Models.Tables`, six maps and one fresh-key counter) to the tables after;
- as a method of the class `Store.Database`, which holds the six tables as fields and updates them in place, with loops where the source loops.

Each method is proved to leave exactly the state its function computes. Each top-level method also preserves `Valid()`: every foreign key resolves and every key is below the counter. The top-level methods are the seven that model an endpoint or an admin action:

- `CreateUsuario`, `MarkPaid`, `RejectRequest` and `ApproveRequest` preserve it unconditionally;
- `CreateQuadra`, `CreateAgendamento` and `SubmitOwnerRequest` preserve it when the caller, if there is one, is an existing user.

The helper methods `DecodeQuadras`, `InsertSubVenues`, `InsertImages`, `SetStatus`, `ApproveOne` and `CreateVenues` are specified by the state they leave, with no claim about `Valid()`. The properties the source promises are lemmas about the functions: counts, field copies, "nothing else changes", and read-only fields having no effect.

The model's external dependencies are parameters:

- the password hasher (`setPassword`);
- `json.loads` (`loads`, returning an `Option`);
- the clock (`now`);
- the set of models whose lookup or count raises (`failing`);
- the exception raised while counting (`fault`).

An owner-request body comes in one of two kinds, and the view's treatment of `quadras` depends on the kind (api/views.py:79-124):

- A JSON body carries no files. A string `quadras` that `json.loads` decodes is replaced by its decoding. Anything else is left as it was, for the serializer to judge (the view's comment at api/views.py:105-106). A value that is still a string is not a list, so nested validation refuses it, and with it the whole request.
- A multipart body is a form. The nested list serializer reads a form only through indexed keys (`quadras[0]nome`, ...). A plain `quadras` field, decoded or not, therefore gives no sub-venue and never fails validation. The form's `images` files become image rows.

## Model

| member | source | states |
|---|---|---|
| Models.ParseTipo | api/models.py:8-13 | a role code decodes exactly when it is "comum", "associado" or "admin", and to the role with that code |
| Models.ParseStatus | api/models.py:63-68 | a status code decodes exactly when it is pending, paid, approved or rejected, and to the status with that code |
| Models.ParseSurfaceType | api/models.py:102-107 | a surface code decodes exactly when it is "synthetic" or "natural" |
| Models.ChoiceCodesRoundTrip | api/models.py:8-12 | decoding the stored code of any role, status or surface type gives that choice back |
| Models.ListingOrdersAreTotalPreorders | api/models.py:53 | the reservation order (date, then time, newest first) and the request order (newest `created_at` first) are the descending order on their sort keys. Both are total and transitive, and two reservations that each list before the other have the same date and time |
| Models.Listing | api/models.py:53 | the listing of a set of rows holds each of them exactly once and nothing else, and is in descending sort-key order |
| Models.ListingOf | api/models.py:88 | every table has a listing of all its rows, each once, in descending sort-key order, as long as the table is large |
| Models.DistinctListingSize | api/models.py:53 | a sequence without repetitions that holds exactly the keys of a set is as long as the set is large |
| Models.DecimalText | api/models.py:138 | the rendering of a key is a non-empty digit string without a leading zero |
| Models.DecimalRoundTrip | api/models.py:138 | the rendered key reads back as the key |
| Models.UsuarioTextReadsBack | api/models.py:15-16 | two users with the same display text "username (role label)" have the same username and the same role |
| Models.ParenthesizedReadsBack | api/models.py:90-91 | a text "name (label)" determines its name and its label when no label holds an opening parenthesis |
| Models.OwnerRequestTextReadsBack | api/models.py:90-91 | two requests with the same display text "business name (status label)" have the same business name and the same status |
| Models.OwnerRequestQuadraText | api/models.py:118-119 | a sub-venue displays as its name, then " — " (a spaced em dash), then its request's business name |
| Models.OwnerRequestQuadraTextReadsBack | api/models.py:118-119 | two sub-venues of the same request with the same display text have the same name |
| Models.ImageText | api/models.py:137-138 | an image displays as "Imagem", its key (which reads back), " - ", and its request's business name, or "Sem solicitação" when no request is linked |
| Models.InsertUsuarioConsistent | api/serializers.py:21 | a user inserted under the fresh key keeps every foreign key resolved and every key below the counter |
| Models.InsertQuadraConsistent | api/models.py:29 | a venue whose owner exists, inserted under the fresh key, keeps the tables consistent |
| Models.InsertAgendamentoConsistent | api/models.py:42-43 | a reservation whose user and venue exist, inserted under the fresh key, keeps the tables consistent |
| Models.DeleteOwnerRequest | api/models.py:96-98 | deleting a request removes it, exactly its sub-venues, and exactly the images linked to it or to one of those sub-venues; every other row is unchanged |
| Models.DeleteOwnerRequestConsistent | api/models.py:128-133 | the request cascade leaves no dangling foreign key |
| Models.DeleteUsuario | api/models.py:29-72 | after deleting a user, no venue, reservation or owner request left refers to that user, the user is gone and the counter does not move |
| Models.DeleteUsuarioVenues | api/models.py:29-43 | deleting a user removes the user, exactly the venues they own, and exactly the reservations that are theirs or are of those venues; survivors are unchanged |
| Models.DeleteUsuarioRequests | api/models.py:70-75 | deleting a user removes exactly their requests, the sub-venues of those requests and the images hanging from either; survivors are unchanged |
| Models.DeleteUsuarioKeys | api/models.py:70-75 | after the user cascade every key is still below the counter |
| Models.DeleteUsuarioResolves | api/models.py:70-75 | after the user cascade every foreign key still resolves |
| Models.DeleteUsuarioConsistent | api/models.py:70-75 | the user cascade keeps the tables consistent |
| Serializers.ValidateUsuario | api/serializers.py:9-15 | validation refuses exactly the bodies with an invalid field and reports those fields. Validated data hold the given non-blank username, which no user has yet, the given role or the default one, and the given non-blank password |
| Serializers.RegisterUsuario | api/serializers.py:17-22 | a refused registration changes nothing; an accepted one adds exactly the returned key to the user table, a key below the new counter that no user had before |
| Serializers.RegisterUsuarioEffect | api/serializers.py:17-22 | registration fails exactly when a field is invalid and then changes nothing. Otherwise it adds one user under the fresh key and changes nothing else. That user copies the given fields (role "comum" when none is given), stores `setPassword` of the password rather than the password, and is not staff |
| Serializers.RegisterUsuarioRejectsDuplicate | api/models.py:7 | a username already in use is refused with a `username` error, and nothing changes |
| Serializers.RegisteredPasswordMatches | api/serializers.py:18-20 | the new user's stored credential matches the password given at registration |
| Serializers.RegisterUsuarioConsistent | api/serializers.py:17-22 | registration keeps the tables consistent |
| Serializers.UsuarioRepresentation | api/serializers.py:10-15 | a rendered user has every declared field except the write-only password |
| Serializers.QuadraRepresentation | api/serializers.py:26-35 | a rendered venue has every declared field except the write-only `dono_id`, and shows its owner by the owner's display text |
| Serializers.ValidateQuadra | api/serializers.py:26-35 | validation refuses exactly the bodies with a missing or blank name or an unknown `dono_id`, and reports those fields. Validated data keep the name, the capacity and `dono_id`, which names an existing user when given |
| Serializers.ValidateAgendamento | api/serializers.py:39-65 | validation refuses exactly the bodies with an invalid field and reports those fields. Validated data name an existing venue, an existing user when `usuario_id` is given, the given date and time, and the given duration or 60 minutes |
| Serializers.ValidateOwnerRequest | api/serializers.py:101-122 | validation refuses exactly the bodies with a missing or blank business name or a `quadras` value that is not a list of valid entries. Validated data keep the business name and hold one sub-venue per entry in order, or no list when the key was not sent |
| Serializers.SubVenueDefaults | api/models.py:102-111 | a validated sub-venue entry keeps its name; a missing surface type becomes "synthetic" and a given one is kept; a missing shockpad flag becomes false |
| Serializers.SubVenueRows | api/serializers.py:139-140 | there is one sub-venue row per entry, in entry order, linked to the request and holding the entry's fields |
| Serializers.AddSubVenues | api/serializers.py:139-140 | inserting the entries changes only the sub-venue table, keeps every old sub-venue key, and moves the counter past one key per entry |
| Serializers.AddSubVenuesRows | api/serializers.py:139-140 | the entries' rows go under consecutive fresh keys after every old key; old rows are kept; nothing else in the tables changes |
| Serializers.AddSubVenuesOwned | api/serializers.py:139-140 | afterwards the request owns the sub-venues it owned before plus exactly the new keys |
| Serializers.AddSubVenuesCount | api/serializers.py:139-140 | afterwards the request owns exactly one more sub-venue per entry |
| Serializers.OwnerRequestCreate | api/serializers.py:124-142 | create fails exactly when no user is known. Otherwise the new request takes the fresh key, and the counter moves past it and one key per entry |
| Serializers.OwnerRequestCreateFails | api/serializers.py:132-136 | create fails exactly when neither the context user nor the saved user is known, on the NOT NULL `user_id` column |
| Serializers.OwnerRequestCreateShape | api/serializers.py:124-136 | otherwise the new request, pending and owned by the context user (else the saved user), takes the fresh key; the counter moves past it and its sub-venues; only the request and sub-venue tables change |
| Serializers.OwnerRequestCreateRows | api/serializers.py:129-140 | the sub-venue rows, one per `quadras` entry and none without the key, follow the request under the next keys, in order |
| Serializers.OwnerRequestCreateOwned | api/serializers.py:129-140 | the new request owns exactly the new sub-venue rows, and their number is the number of entries |
| Serializers.OwnerRequestCreateConsistent | api/serializers.py:124-142 | creating a request for an existing user keeps the tables consistent |
| Views.CreateQuadra | api/views.py:37-42 | a failure changes nothing; a success adds exactly the returned key to the venue table, a key below the new counter that no venue had before |
| Views.CreateQuadraEffect | api/views.py:37-42 | a venue is created exactly when the body is valid and an owner is known. The owner is the authenticated caller whatever `dono_id` says, else `dono_id`. Its fields are the given ones with blank defaults. A failure changes nothing and a success adds only that venue |
| Views.CreateQuadraIgnoresReadOnly | api/serializers.py:27-35 | the read-only `dono` of the body has no effect |
| Views.CreateQuadraConsistent | api/views.py:37-42 | venue creation by an existing caller keeps the tables consistent |
| Views.CreateAgendamento | api/views.py:66-72 | a failure changes nothing; a success adds exactly the returned key to the reservation table, a key below the new counter that no reservation had before |
| Views.CreateAgendamentoEffect | api/views.py:66-72 | a reservation is created exactly when the body is valid and a user is known. The user is the authenticated caller whatever `usuario_id` says. It lasts 60 minutes unless told otherwise, is unconfirmed and is stamped by the clock. A failure changes nothing and a success adds only that row |
| Views.CreateAgendamentoIgnoresReadOnly | api/serializers.py:65 | the read-only `usuario`, `confirmado` and `criado_em` of the body have no effect |
| Views.CreateAgendamentoConsistent | api/views.py:66-72 | reservation creation by an existing caller keeps the tables consistent |
| Views.VisibleAgendamentos | api/views.py:55-64 | an anonymous caller sees no reservation, staff see all of them, and anyone else sees exactly the reservations whose user is the caller, unchanged |
| Views.ListAgendamentos | api/views.py:55-64 | the GET listing holds every reservation the caller may see exactly once and no other, newest date first and latest time first within a date |
| Views.ListOwnerRequests | api/views.py:81 | the GET listing of owner requests holds every request exactly once, newest `created_at` first |
| Views.CreatedAgendamentoVisibleToCaller | api/views.py:55-72 | a reservation created by an authenticated caller is visible to that caller afterwards, and is in that caller's ordered listing |
| Views.PreParseQuadras | api/views.py:95-107 | a non-empty string `quadras` that decodes is replaced by its decoding. Anything else is left as it was, and nothing else in the body changes |
| Views.ImageRows | api/views.py:122-124 | there is one image row per uploaded file, in upload order, linked to the request and to no sub-venue |
| Views.AttachImages | api/views.py:122-124 | attaching changes only the image table, keeps every old image key, and moves the counter past one key per file |
| Views.AttachImagesEffect | api/views.py:122-124 | the image rows go under consecutive fresh keys; old images are kept; nothing else changes |
| Views.AttachImagesConsistent | api/views.py:122-124 | attaching images to an existing request keeps the tables consistent |
| Views.SerializerInput | api/views.py:92-110 | the serializer sees the body with only `quadras` changed: the pre-parsed body for JSON, and no `quadras` list for a multipart form |
| Views.Uploads | api/views.py:122 | a JSON body uploads no file; a multipart body uploads its `images` files |
| Views.SubmitOwnerRequest | api/views.py:85-124 | a failed submission changes nothing; a successful one returns the fresh key, which becomes a request key, and moves the counter past the request and at least its images |
| Views.SubmitOwnerRequestFailure | api/views.py:92-119 | submission fails exactly when the validated body is invalid or nobody is logged in, and a failure creates nothing. For JSON the test is on the pre-parsed body; a multipart form fails only on a missing or blank `business_name` |
| Views.SubmitOwnerRequestEffect | api/views.py:85-119 | a valid submission adds one request under the fresh key. The request is owned by the caller, pending whatever the body says, stamped by the clock and copies the business fields. Users, venues and reservations do not change |
| Views.SubmittedEntries | api/serializers.py:129 | the entries turned into sub-venues: one per entry of the pre-parsed JSON list, in order, and none without the key or for a multipart form |
| Views.SubmitOwnerRequestSubVenues | api/views.py:115-119 | it adds one sub-venue row per submitted entry, in order after the request, and these are exactly the new request's sub-venues |
| Views.SubmitOwnerRequestSteps | api/views.py:110-124 | a valid submission by a logged-in caller is the serializer's create followed by the image attachment |
| Views.CreateThenAttachImages | api/views.py:117-124 | the images follow the request and its sub-venues under the next keys, in order |
| Views.SubmitOwnerRequestImages | api/views.py:122-124 | a submission adds one image row per uploaded file after the sub-venues, none for a JSON body, and the counter moves past all new rows |
| Views.SubmitWithoutQuadrasCreatesNone | api/serializers.py:129 | a body without `quadras`, and a multipart form whatever its `quadras` field holds, creates a request with no sub-venue and leaves the sub-venue table as it was |
| Views.SubmitOwnerRequestIgnoresReadOnly | api/serializers.py:122 | the read-only `user`, `status` and `created_at` of the body have no effect |
| Views.SubmitOwnerRequestConsistent | api/views.py:85-124 | submission by an existing caller keeps the tables consistent |
| Views.AdminCounts | api/views.py:144-160 | either exactly the five counters, equal to the table sizes and the number of pending requests, with pending at most all requests, or status 500 with the exception's message |
| Admin.BulkStatus | api/admin.py:124-126 | a bulk update keeps the set of requests, and the number it reports is at most the number of requests |
| Admin.MarkPaid | api/admin.py:124-126 | every selected request is paid afterwards, the set of requests is kept, and the pending requests are the old ones minus the selected ones |
| Admin.RejectRequest | api/admin.py:153-156 | every selected request is rejected afterwards, the set of requests is kept, and the pending requests are the old ones minus the selected ones |
| Admin.BulkStatusEffect | api/admin.py:124-126 | every selected request gets the new status whatever it had, and keeps its other fields. Unselected requests and the other tables do not change. The reported number is the number of selected requests that exist, at most the number of requests |
| Admin.BulkStatusIdempotent | api/admin.py:125 | repeating the same bulk update changes nothing more |
| Admin.BulkStatusPending | api/admin.py:153-156 | after marking paid or rejecting, the pending requests are the old ones minus the selected ones |
| Admin.BulkStatusConsistent | api/admin.py:124-126 | a bulk status update keeps the tables consistent |
| Admin.OrNone | api/admin.py:148 | `x or None` on a capacity is None exactly when the capacity is None or 0, and the capacity otherwise |
| Admin.VenueFrom | api/admin.py:142-149 | a created venue copies the sub-venue's name, type and notes and the request's address, is owned by the requester, and has the capacity after `or None` |
| Admin.SubVenueKeys | api/admin.py:141 | the scanned keys are exactly the request's sub-venues, in increasing order |
| Admin.SubVenueKeysCount | api/admin.py:141 | the scan finds as many keys as the request has sub-venues |
| Admin.VenuesFor | api/admin.py:141-149 | one venue per scanned key, in order, built from that sub-venue |
| Admin.ApprovedVenues | api/admin.py:141-149 | the request's venues, one per sub-venue in key order, each built from its sub-venue |
| Admin.ApproveOne | api/admin.py:133-149 | one approval keeps the sets of requests and users and every requester; it does not touch the sub-venue rows; the counter does not go back |
| Admin.ApproveAll | api/admin.py:132-149 | the same over the whole selection, in queryset order |
| Admin.ApproveAllKeepsApprovable | api/admin.py:132-137 | a request approvable before the loop is approvable at every later pass |
| Admin.ApproveAllStatuses | api/admin.py:132-134 | every selected request ends approved whatever its prior status, with its other fields kept; other requests do not change |
| Admin.ApproveOneUsers | api/admin.py:135-138 | one approval sets the requester's role to admin and changes no other user or field |
| Admin.ApproveAllUsers | api/admin.py:135-138 | every requester of a selected request ends with `tipo = "admin"` and every other field kept (`is_staff` included); no other user changes |
| Admin.ApproveAllFrame | api/admin.py:132-149 | the whole approval loop, over any selection, leaves the images and the reservations unchanged |
| Admin.ApproveOneVenues | api/admin.py:141-149 | one approval appends the request's venues after the old ones, which it keeps, and changes neither sub-venues, images nor reservations |
| Admin.ApproveOneCount | api/admin.py:141-149 | one approval adds exactly as many venues as the request has sub-venues |
| Admin.ApproveOneConsistent | api/admin.py:133-149 | one approval keeps the tables consistent |
| Admin.ApproveAllConsistent | api/admin.py:132-149 | the whole approval keeps the tables consistent |
| Admin.ApproveAllCount | api/admin.py:132-149 | the whole approval adds the sum, over the selection, of the sub-venue counts |
| Admin.ReapprovalDuplicatesVenues | api/admin.py:132-149 | approving the same request twice creates its venues twice: nothing guards on the status |
| AdminExtras.RowCount | api/templatetags/admin_extras.py:24-25 | a mapped model name looks up that table's row count, and any other name fails |
| AdminExtras.ModelCounts | api/templatetags/admin_extras.py:14-29 | exactly four entries, in mapping order, with captions and icons copied. An entry's count is its table's row count, or 0 when that model's lookup or count raises, whatever happens to the others |
| Store.Database.CreateUsuario | api/serializers.py:17-22 | the in-place registration leaves the state and result of `RegisterUsuario` and keeps `Valid()` |
| Store.Database.CreateQuadra | api/views.py:37-42 | the in-place venue creation matches `Views.CreateQuadra` and keeps `Valid()` for an existing caller |
| Store.Database.CreateAgendamento | api/views.py:66-72 | the in-place reservation creation matches `Views.CreateAgendamento` and keeps `Valid()` for an existing caller |
| Store.Database.SubmitOwnerRequest | api/views.py:85-124 | the pre-parse, the removal of a form's `quadras` list, validation, save, sub-venue loop and image loop leave the state and result of `Views.SubmitOwnerRequest`, and keep `Valid()` for an existing caller |
| Store.Database.DecodeQuadras | api/views.py:95-107 | the in-place rewrite of `quadras` gives `Views.PreParseQuadras` |
| Store.Database.InsertSubVenues | api/serializers.py:139-140 | the insertion loop leaves `AddSubVenues` of the old state |
| Store.Database.InsertImages | api/views.py:122-124 | the upload loop leaves `AttachImages` of the old state |
| Store.Database.MarkPaid | api/admin.py:124-126 | the bulk update to "paid" leaves `BulkStatus` with `Paid`, reports its count and keeps `Valid()` |
| Store.Database.RejectRequest | api/admin.py:153-156 | the bulk update to "rejected" leaves `BulkStatus` with `Rejected`, reports its count and keeps `Valid()` |
| Store.Database.SetStatus | api/admin.py:125 | `queryset.update(status=...)` leaves `BulkStatus` of the old state |
| Store.Database.ApproveRequest | api/admin.py:129-151 | the approval loop leaves `Admin.ApproveAll` of the old state, reports the number of selected requests and keeps `Valid()` |
| Store.Database.ApproveOne | api/admin.py:133-149 | one pass of the loop leaves `Admin.ApproveOne` of the old state |
| Store.Database.CreateVenues | api/admin.py:141-149 | the inner loop appends the venues built from the scanned sub-venues under consecutive fresh keys and changes nothing else |

## Left out

- Permission classes and decorators (`IsAuthenticatedOrReadOnly`, `staff_member_required`, `require_GET`). The caller is an optional user key. The unauthenticated fallbacks of `perform_create` and `create` are modelled: they fail on the NOT NULL owner column when no owner is supplied.
- HTTP request and response objects, status codes other than the 500 of `admin_counts`, and the rendered response of the owner-request view.
- Indexed form keys for nested lists (`quadras[0]nome`, ...). A multipart body as modelled carries no nested sub-venue list, so it creates no sub-venue, as described above. A JSON body carries no files.
- Views.ListAgendamentos and Views.ListOwnerRequests: rows that tie on the sort key come in an order the database chooses; the model fixes none and proves nothing about the order among ties.
- Field validation beyond presence, blankness, choices, username uniqueness and foreign-key existence: `max_length`, e-mail and username formats, whitespace trimming and type coercion are not modelled.
- Password hashing and `json.loads` are parameters (`setPassword`, `loads`), with no properties assumed.
- File storage and upload paths. An uploaded file is represented by its name.
- The ORM and the database. Each table has its own auto-increment in the source; the model simplifies this to one shared fresh-key counter, so keys stay fresh in every table. Transactions are not modelled.
- `auto_now_add` timestamps. Timestamps come from the `now` parameter, and dates and times are opaque integers.
- Concurrency. In particular, two simultaneous approvals of the same request are not modelled.
- The admin UI configuration: list displays, filters, inlines, previews, `message_user` texts and translations.
- URL routing (`api/urls.py`, `core/urls.py`) and `core/serializers.py`.
- `Agendamento.__str__` and `Quadra.__str__`. The first formats a date and a time, which are opaque here; the second is the venue's name.
- Admin.SubVenueKeys: `obj.quadras.all()` has no declared ordering, and the model takes the sub-venues in ascending key order.
- Models.DeleteUsuario and Models.DeleteOwnerRequest are pure functions only. The core's own code never deletes a row. Deletion happens only through framework code: the `destroy` endpoints that `QuadraViewSet` and `AgendamentoViewSet` inherit from `ModelViewSet` (api/views.py:31, 45), and the Django admin's built-in "delete selected" action. So there are no `Store.Database` methods for deletion; the two functions state what the cascades of api/models.py leave behind.
- Admin.ApproveAll: the `if usr:` test of the source always holds, because the requester column is NOT NULL. A request whose requester row is missing is excluded by the precondition `Approvable` instead of being modelled as the exception the source raises.
