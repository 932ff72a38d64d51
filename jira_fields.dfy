/**
 * The Jira field-name map: `jira.fields()` lists every field with its
 * display name and its id, and the map sends each name to an id so that
 * issues can be filled in by name. The list Jira returns is an input here.
 */
module JiraFields {

  /** One entry of `jira.fields()`: its `id` and its `name`. */
  datatype Field = Field(id: string, name: string)

  /** The dictionary after storing the fields in list order; a later store of a name overwrites. */
  function NameToId(fields: seq<Field>): map<string, string>
    decreases |fields|
  {
    if fields == [] then map[]
    else
      var last := fields[|fields| - 1];
      NameToId(fields[..|fields| - 1])[last.name := last.id]
  }

  /** The names that occur in the field list. */
  function Names(fields: seq<Field>): set<string>
  {
    set i | 0 <= i < |fields| :: fields[i].name
  }

  /** `get_field_name_to_id`: one dictionary store per field, in list order. */
  method GetFieldNameToId(fields: seq<Field>) returns (nameToId: map<string, string>)
    ensures nameToId == NameToId(fields)
  {
    nameToId := map[];
    var i := 0;
    while i < |fields|
      invariant 0 <= i <= |fields|
      invariant nameToId == NameToId(fields[..i])
    {
      var f := fields[i];
      assert fields[..i + 1][..i] == fields[..i];
      nameToId := nameToId[f.name := f.id];
      i := i + 1;
    }
    assert fields[..i] == fields;
  }

  // ---------------------------------------------------------------------
  // What the map holds

  /** The keys are exactly the names of the listed fields. */
  lemma {:induction false} KeysAreNames(fields: seq<Field>)
    ensures NameToId(fields).Keys == Names(fields)
    decreases |fields|
  {
    if fields != [] {
      var init := fields[..|fields| - 1];
      KeysAreNames(init);
      assert Names(fields) == Names(init) + {fields[|fields| - 1].name} by {
        forall x | x in Names(fields) ensures x in Names(init) + {fields[|fields| - 1].name} {
          var i :| 0 <= i < |fields| && fields[i].name == x;
          if i < |fields| - 1 {
            assert init[i] == fields[i];
          }
        }
        forall x | x in Names(init) ensures x in Names(fields) {
          var i :| 0 <= i < |init| && init[i].name == x;
          assert fields[i] == init[i];
        }
      }
    }
  }

  /** A name maps to the id of the last field that carries it. */
  lemma {:induction false} LastFieldWins(fields: seq<Field>, i: nat)
    requires i < |fields|
    requires forall j :: i < j < |fields| ==> fields[j].name != fields[i].name
    ensures fields[i].name in NameToId(fields)
    ensures NameToId(fields)[fields[i].name] == fields[i].id
    decreases |fields|
  {
    if i < |fields| - 1 {
      var init := fields[..|fields| - 1];
      assert init[i] == fields[i];
      LastFieldWins(init, i);
    }
  }

  /** There are never more names than fields; an empty list gives an empty map. */
  lemma {:induction false} MapSize(fields: seq<Field>)
    ensures |NameToId(fields)| <= |fields|
    ensures fields == [] ==> NameToId(fields) == map[]
    decreases |fields|
  {
    if fields != [] {
      var init := fields[..|fields| - 1];
      var last := fields[|fields| - 1];
      MapSize(init);
      var m := NameToId(init);
      assert m[last.name := last.id].Keys == m.Keys + {last.name};
      assert |m.Keys + {last.name}| <= |m.Keys| + 1;
    }
  }
}
