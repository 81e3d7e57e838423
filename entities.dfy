/** The entities of a configuration entry as the options flow of config_flow.py handles them:
    the list "variables" of records {name, uid, offset, length, type, entity_type}, the
    label "name (UID: uid)" by which the user picks one, editing and deleting the picked
    entity, and refreshing uid, offset, length and type from the .vlist file. */
module Entities {
  import opened Bytes
  import opened PyText
  import Vlist

  /** One entry of the "variables" list. */
  datatype Entity = Entity(name: string, uid: int, offset: int, length: int, typeName: string,
                           entityType: string)

  /** The text under which an entity is offered: f"{name} (UID: {uid})". */
  function Label(e: Entity): string
  {
    e.name + " (UID: " + DecimalString(e.uid) + ")"
  }

  /** The labels offered by the manage-entities step, one per entity, in list order. */
  function Labels(vars: seq<Entity>): (r: seq<string>)
    ensures |r| == |vars|
    ensures forall i :: 0 <= i < |vars| ==> r[i] == Label(vars[i])
  {
    if vars == [] then [] else [Label(vars[0])] + Labels(vars[1..])
  }

  /** The manage-entities step: the labels to choose from, or the abort "no_entities" when
      there is nothing to choose. */
  function Choices(vars: seq<Entity>): (r: Option<seq<string>>)
    ensures r.None? <==> vars == []
    ensures r.Some? ==> |r.value| == |vars| && forall i :: 0 <= i < |vars| ==> r.value[i] == Label(vars[i])
  {
    if vars == [] then None else Some(Labels(vars))
  }

  /** `next(...)` over a list of texts: the first index holding `selected`, or None. */
  function FirstIndex(texts: seq<string>, selected: string): (r: Option<nat>)
    ensures r.Some? ==> r.value < |texts| && texts[r.value] == selected
    ensures r.Some? ==> forall j :: 0 <= j < r.value ==> texts[j] != selected
    ensures r.None? ==> forall j :: 0 <= j < |texts| ==> texts[j] != selected
  {
    if texts == [] then None
    else if texts[0] == selected then Some(0)
    else match FirstIndex(texts[1..], selected)
      case None => None
      case Some(k) => Some(k + 1)
  }

  /** `next((var for var in variables if label(var) == selected), None)`: the index of the
      first entity whose label is the selected one, or None when no label matches. */
  function FindByLabel(vars: seq<Entity>, selected: string): (r: Option<nat>)
    ensures r.Some? ==> r.value < |vars| && Label(vars[r.value]) == selected
    ensures r.Some? ==> forall j :: 0 <= j < r.value ==> Label(vars[j]) != selected
    ensures r.None? ==> forall j :: 0 <= j < |vars| ==> Label(vars[j]) != selected
  {
    var labels := Labels(vars);
    var r := FirstIndex(labels, selected);
    assert forall j :: 0 <= j < |vars| ==> labels[j] == Label(vars[j]);
    r
  }

  /** Every label the manage step offers finds an entity, the first one carrying it. */
  lemma {:induction false} OfferedLabelFound(vars: seq<Entity>, i: nat)
    requires i < |vars|
    ensures var r := FindByLabel(vars, Labels(vars)[i]);
      r.Some? && r.value <= i && Label(vars[r.value]) == Label(vars[i])
  {
    assert Labels(vars)[i] == Label(vars[i]);
  }

  /** `list.remove(x)`: the first element equal to x taken out, the others kept in order.
      The caller passes an element of the list (remove raises ValueError otherwise). */
  function RemoveFirst(xs: seq<Entity>, x: Entity): (r: seq<Entity>)
    requires x in xs
    ensures |r| == |xs| - 1
  {
    if xs[0] == x then xs[1..] else [xs[0]] + RemoveFirst(xs[1..], x)
  }

  /** list.remove takes out one occurrence of the entity and keeps all the others. */
  lemma {:induction false} RemoveFirstMultiset(xs: seq<Entity>, x: Entity)
    requires x in xs
    ensures multiset(RemoveFirst(xs, x)) + multiset{x} == multiset(xs)
  {
    assert xs == [xs[0]] + xs[1..];
    if xs[0] != x {
      RemoveFirstMultiset(xs[1..], x);
    }
  }

  /** list.remove takes out the first occurrence: an entity that does not occur before
      it is the one removed, and the rest keep their order. */
  lemma {:induction false} RemoveFirstAt(before: seq<Entity>, x: Entity, after: seq<Entity>)
    requires x !in before
    ensures RemoveFirst(before + [x] + after, x) == before + after
  {
    var xs := before + [x] + after;
    if before == [] {
      assert xs[0] == x && xs[1..] == after;
    } else {
      var rest := before[1..];
      assert xs[0] == before[0] != x;
      assert xs[1..] == rest + [x] + after;
      RemoveFirstAt(rest, x, after);
      assert [before[0]] + (rest + after) == before + after;
    }
  }

  /** The same at an index: an entity with no equal before index k is removed from k. */
  lemma RemoveFirstIndex(xs: seq<Entity>, k: nat)
    requires k < |xs| && xs[k] !in xs[..k]
    ensures RemoveFirst(xs, xs[k]) == xs[..k] + xs[k + 1..]
  {
    var before, x, after := xs[..k], xs[k], xs[k + 1..];
    assert before + [x] + after == xs by {
      assert xs == xs[..k] + xs[k..];
      assert xs[k..] == [x] + after;
    }
    RemoveFirstAt(before, x, after);
  }

  /** A confirmed delete removes exactly the entity the lookup found: the entities before
      it have other labels, so none of them equals it, and list.remove takes out the one at
      the found index and no other. */
  lemma DeleteRemovesFound(vars: seq<Entity>, selected: string)
    requires FindByLabel(vars, selected).Some?
    ensures var k := FindByLabel(vars, selected).value;
      RemoveFirst(vars, vars[k]) == vars[..k] + vars[k + 1..]
  {
    var k := FindByLabel(vars, selected).value;
    RemoveFirstIndex(vars, k);
  }

  /** `entity.update(new_data[entity["name"]])`: when the table has the entity's name, its
      uid, offset, length and type are taken from the table; otherwise nothing changes. */
  function Refreshed(e: Entity, table: map<string, Vlist.Entry>): (r: Entity)
    ensures r.name == e.name && r.entityType == e.entityType
    ensures e.name !in table ==> r == e
    ensures e.name in table ==> var t := table[e.name];
      r.uid == t.uid && r.offset == t.offset && r.length == t.length && r.typeName == t.typeName
  {
    if e.name in table then
      var t := table[e.name];
      e.(uid := t.uid, offset := t.offset, length := t.length, typeName := t.typeName)
    else e
  }

  /** The merge loop of reload_from_vlist over the whole list. */
  function Reloaded(vars: seq<Entity>, table: map<string, Vlist.Entry>): (r: seq<Entity>)
    ensures |r| == |vars|
    ensures forall i :: 0 <= i < |vars| ==> r[i] == Refreshed(vars[i], table)
  {
    if vars == [] then [] else [Refreshed(vars[0], table)] + Reloaded(vars[1..], table)
  }

  /** The merge keeps the list's length and order, every name and entity type, leaves the
      entities the file does not name as they were, and gives the others the file's values. */
  lemma ReloadKeepsShape(vars: seq<Entity>, table: map<string, Vlist.Entry>, i: nat)
    requires i < |vars|
    ensures |Reloaded(vars, table)| == |vars|
    ensures Reloaded(vars, table)[i].name == vars[i].name
    ensures Reloaded(vars, table)[i].entityType == vars[i].entityType
    ensures vars[i].name !in table ==> Reloaded(vars, table)[i] == vars[i]
    ensures vars[i].name in table ==> Reloaded(vars, table)[i].uid == table[vars[i].name].uid
  {
  }

  /** Reloading twice from the same file is reloading once. */
  lemma {:induction false} ReloadIdempotent(vars: seq<Entity>, table: map<string, Vlist.Entry>)
    ensures Reloaded(Reloaded(vars, table), table) == Reloaded(vars, table)
  {
    var once := Reloaded(vars, table);
    forall i | 0 <= i < |vars|
      ensures Reloaded(once, table)[i] == once[i]
    {
      assert once[i] == Refreshed(vars[i], table);
      assert once[i].name == vars[i].name;
    }
  }

  /** The line parses to an entry under the entity's name carrying the entity's uid,
      offset, length and type. */
  predicate LineGives(line: string, e: Entity)
  {
    var p := Vlist.ParseLine(line);
    && p.Ok? && p.value.Some? && p.value.value.0 == e.name
    && var t := p.value.value.1;
       t.uid == e.uid && t.offset == e.offset && t.length == e.length && t.typeName == e.typeName
  }

  /** What a reload gives an entity the file names comes from a line of the file below the
      header that names it. */
  lemma ReloadFromLine(vars: seq<Entity>, lines: seq<string>, i: nat)
    requires i < |vars| && vars[i].name in Vlist.LoadVlist(lines).table
    ensures exists j :: (0 <= j < |Vlist.Body(lines)| &&
                         LineGives(Vlist.Body(lines)[j], Reloaded(vars, Vlist.LoadVlist(lines).table)[i]))
  {
    Vlist.EntryFromLine(Vlist.Body(lines), vars[i].name);
  }

  /** How a step of the options flow ends: it went through, or the flow was aborted with
      the reason given. */
  datatype Outcome = Done | Aborted(reason: string)

  /** The options flow over one configuration entry: the entity list and the label picked in
      the manage-entities step. */
  class OptionsFlow {
    var variables: seq<Entity>
    var selected: Option<string>

    constructor (variables: seq<Entity>)
      ensures this.variables == variables && selected == None
    {
      this.variables := variables;
      selected := None;
    }

    /** The manage-entities step with a label chosen for editing or deleting. */
    method Select(choice: string)
      modifies this
      ensures selected == Some(choice) && variables == old(variables)
    {
      selected := Some(choice);
    }

    /** The lookup of the edit and delete steps: the first entity whose label is the
        selected one; nothing selected matches no entity. */
    function Found(): (r: Option<nat>)
      reads this
      ensures r.Some? ==> selected.Some? && r.value < |variables| && Label(variables[r.value]) == selected.value
      ensures r.Some? ==> forall j :: 0 <= j < r.value ==> Label(variables[j]) != selected.value
      ensures r.None? ==> selected.None? || forall j :: 0 <= j < |variables| ==> Label(variables[j]) != selected.value
    {
      if selected.None? then None else FindByLabel(variables, selected.value)
    }

    /** The edit-entity step with the form filled in: entity.update(user_input) replaces
      every field of the found entity; without one the flow aborts with
      "entity_not_found" and the list is left as it was. */
    method EditEntity(input: Entity) returns (r: Outcome)
      modifies this
      ensures selected == old(selected)
      ensures old(Found()).None? ==> r == Aborted("entity_not_found") && variables == old(variables)
      ensures old(Found()).Some? ==> r == Done && variables == old(variables)[old(Found()).value := input]
    {
      var k := Found();
      if k.None? {
        return Aborted("entity_not_found");
      }
      variables := variables[k.value := input];
      return Done;
    }

    /** The confirm-delete step: with confirm set, the found entity is removed from the list;
      without it nothing changes; without a found entity the flow aborts. */
    method ConfirmDelete(confirm: bool) returns (r: Outcome)
      modifies this
      ensures selected == old(selected)
      ensures old(Found()).None? ==> r == Aborted("entity_not_found") && variables == old(variables)
      ensures old(Found()).Some? && !confirm ==> r == Done && variables == old(variables)
      ensures old(Found()).Some? && confirm ==>
        (r == Done && variables == old(variables)[..old(Found()).value] + old(variables)[old(Found()).value + 1..])
    {
      var k := Found();
      if k.None? {
        return Aborted("entity_not_found");
      }
      if confirm {
        var entity := variables[k.value];
        assert RemoveFirst(variables, entity) == variables[..k.value] + variables[k.value + 1..] by {
          assert k == FindByLabel(variables, selected.value);
          DeleteRemovesFound(variables, selected.value);
        }
        variables := RemoveFirst(variables, entity);
      }
      return Done;
    }

    /** reload_from_vlist. `file` is the content of the configured .vlist file, or None when
      no file is configured or it cannot be opened. A line int() refuses abandons the whole
      reload; otherwise every entity named in the file is refreshed from it in place. */
    method ReloadFromVlist(file: Option<seq<string>>)
      modifies this
      ensures selected == old(selected)
      ensures file.None? || Vlist.LoadVlist(file.value).failed ==> variables == old(variables)
      ensures file.Some? && !Vlist.LoadVlist(file.value).failed ==>
        variables == Reloaded(old(variables), Vlist.LoadVlist(file.value).table)
    {
      if file.None? {
        return;
      }
      var table, failed := Vlist.ReadVlist(file.value);
      if failed {
        return;
      }
      Refresh(table);
    }

    /** The merge loop of reload_from_vlist: every entity the table names takes the uid,
        offset, length and type recorded for it, in place; the others stay as they were. */
    method Refresh(table: map<string, Vlist.Entry>)
      modifies this
      ensures selected == old(selected)
      ensures variables == Reloaded(old(variables), table)
    {
      ghost var before := variables;
      var i := 0;
      while i < |variables|
        invariant 0 <= i <= |variables| == |before|
        invariant selected == old(selected)
        invariant forall j :: 0 <= j < i ==> variables[j] == Refreshed(before[j], table)
        invariant forall j :: i <= j < |variables| ==> variables[j] == before[j]
      {
        var entity := variables[i];
        if entity.name in table {
          var t := table[entity.name];
          variables := variables[i := entity.(uid := t.uid, offset := t.offset, length := t.length, typeName := t.typeName)];
        }
        i := i + 1;
      }
      assert variables == Reloaded(before, table);
    }
  }
}
