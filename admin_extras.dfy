/** The `ifuut_model_counts` template tag of the admin dashboard: one entry per
    mapped model, in mapping order, with the model's row count, or 0 when looking the
    model up or counting its rows raised. */
module AdminExtras {
  import opened Wrappers
  import opened Models

  datatype Entry = Entry(caption: string, model: string, icon: string)

  datatype CountEntry = CountEntry(caption: string, count: nat, icon: string)

  /** The dashboard mapping, in display order. */
  const Mapping: seq<Entry> := [
    Entry("Quadras", "api.Quadra", "\U{1F3DF}\U{FE0F}"),
    Entry("Agendamentos", "api.Agendamento", "\U{1F4C5}"),
    Entry("Usu\U{E1}rios", "api.Usuario", "\U{1F9CD}"),
    Entry("Solicita\U{E7}\U{F5}es", "api.OwnerRequest", "\U{1F9FE}")
  ]

  /** `apps.get_model(model).objects.count()`: the row count of the named table, or
      None when no model goes by that name (the lookup raises). */
  function RowCount(t: Tables, model: string): (r: Option<nat>)
    ensures r.Some? <==> model in {"api.Quadra", "api.Agendamento", "api.Usuario", "api.OwnerRequest"}
    ensures model == "api.Quadra" ==> r == Some(|t.quadras|)
    ensures model == "api.Agendamento" ==> r == Some(|t.agendamentos|)
    ensures model == "api.Usuario" ==> r == Some(|t.usuarios|)
    ensures model == "api.OwnerRequest" ==> r == Some(|t.ownerRequests|)
  {
    if model == "api.Quadra" then Some(|t.quadras|)
    else if model == "api.Agendamento" then Some(|t.agendamentos|)
    else if model == "api.Usuario" then Some(|t.usuarios|)
    else if model == "api.OwnerRequest" then Some(|t.ownerRequests|)
    else None
  }

  /** The row counts of the mapped tables, in mapping order. */
  function TableSizes(t: Tables): seq<nat> {
    [|t.quadras|, |t.agendamentos|, |t.usuarios|, |t.ownerRequests|]
  }

  /** The tag. `failing` is the set of model labels whose lookup or count raises (a
      database fault, an unregistered app); each of those counts as 0, and the loop
      goes on with the next entry. */
  method ModelCounts(t: Tables, failing: set<string>) returns (results: seq<CountEntry>)
    ensures |results| == |Mapping| == 4
    ensures forall i :: 0 <= i < 4 ==>
      results[i].caption == Mapping[i].caption && results[i].icon == Mapping[i].icon
    ensures forall i :: 0 <= i < 4 ==>
      results[i].count == (if Mapping[i].model in failing then 0 else TableSizes(t)[i])
  {
    results := [];
    var i := 0;
    while i < |Mapping|
      invariant 0 <= i <= |Mapping|
      invariant |results| == i
      invariant forall j :: 0 <= j < i ==>
        results[j].caption == Mapping[j].caption && results[j].icon == Mapping[j].icon
      invariant forall j :: 0 <= j < i ==>
        results[j].count == (if Mapping[j].model in failing then 0 else TableSizes(t)[j])
    {
      var item := Mapping[i];
      var count: nat;
      var found := RowCount(t, item.model);
      if item.model in failing || found.None? {
        count := 0;
      } else {
        count := found.value;
      }
      results := results + [CountEntry(item.caption, count, item.icon)];
      i := i + 1;
    }
  }
}
