/**
 * `SimpleDB`: the three local tables the application keeps, held as maps:
 * the key-value `storage` table, `equipment_type` (row id to row, names
 * unique) and `affix` (row id to row, contents unique), with the upserts,
 * renames, updates and deletes performed on them.
 */
module Storage {
  import opened Wrappers
  import opened Geometry
  import opened LegacyTuple

  // ---------------------------------------------------------------------------
  // Rows and uniqueness
  // ---------------------------------------------------------------------------

  /** A row of `equipment_type`: gear position, the two corners of the affix area, and the bound window title. */
  datatype EquipmentType = EquipmentType(name: string, gear: Point, p1: Point, p2: Point, windowTitle: Option<string>)

  /** A row of `affix`. */
  datatype Affix = Affix(content: string, description: string)

  /** What `get_equipment_type` returns: no window title. */
  datatype TypeSummary = TypeSummary(id: nat, name: string, gear: Point, p1: Point, p2: Point)

  /** What `get_equipment_type_by_id` returns: with the window title. */
  datatype TypeDetail = TypeDetail(id: nat, name: string, gear: Point, p1: Point, p2: Point, windowTitle: Option<string>)

  /** `name TEXT UNIQUE`. */
  predicate UniqueNames(types: map<nat, EquipmentType>) {
    forall a, b :: a in types && b in types && types[a].name == types[b].name ==> a == b
  }

  /** `content TEXT UNIQUE`. */
  predicate UniqueContents(affixes: map<nat, Affix>) {
    forall a, b :: a in affixes && b in affixes && affixes[a].content == affixes[b].content ==> a == b
  }

  predicate NameHeld(types: map<nat, EquipmentType>, name: string) {
    exists id :: id in types && types[id].name == name
  }

  predicate ContentHeld(affixes: map<nat, Affix>, content: string) {
    exists id :: id in affixes && affixes[id].content == content
  }

  // ---------------------------------------------------------------------------
  // equipment_type
  // ---------------------------------------------------------------------------

  /**
   * `INSERT ... ON CONFLICT(name) DO UPDATE`: the row that has the name takes
   * the new values and keeps its id, or a new row is added under id `next`.
   */
  function UpsertType(types: map<nat, EquipmentType>, next: nat, row: EquipmentType): map<nat, EquipmentType> {
    if NameHeld(types, row.name) then map id | id in types :: if types[id].name == row.name then row else types[id]
    else types[next := row]
  }

  /**
   * After saving, exactly one row has the name and it holds the saved values;
   * an existing row keeps its id, a new one gets a fresh id, and every other
   * row is unchanged.
   */
  lemma UpsertTypeMeaning(types: map<nat, EquipmentType>, next: nat, row: EquipmentType)
    requires UniqueNames(types) && forall id :: id in types ==> id < next
    ensures var after := UpsertType(types, next, row);
      && UniqueNames(after)
      && (exists id :: id in after && after[id] == row)
      && (NameHeld(types, row.name) ==> after.Keys == types.Keys)
      && (!NameHeld(types, row.name) ==> after.Keys == types.Keys + {next} && after[next] == row)
      && (forall id :: id in types && types[id].name == row.name ==> after[id] == row)
      && (forall id :: id in types && types[id].name != row.name ==> after[id] == types[id])
  {
    var after := UpsertType(types, next, row);
    if NameHeld(types, row.name) {
      var id :| id in types && types[id].name == row.name;
      assert after[id] == row;
    } else {
      assert after[next] == row;
    }
  }

  /**
   * `UPDATE equipment_type SET name = ? WHERE id = ?`: refused when another row
   * has the new name; it succeeds, changing nothing, when no row has the id.
   */
  function RenameType(types: map<nat, EquipmentType>, id: nat, newName: string): (bool, map<nat, EquipmentType>) {
    if id !in types then (true, types)
    else if exists other :: other in types && other != id && types[other].name == newName then (false, types)
    else (true, types[id := types[id].(name := newName)])
  }

  /** A rename fails exactly on a name held by another row, leaves the table alone when it fails, and keeps names unique. */
  lemma RenameTypeMeaning(types: map<nat, EquipmentType>, id: nat, newName: string)
    requires UniqueNames(types)
    ensures var (ok, after) := RenameType(types, id, newName);
      && (!ok <==> id in types && exists other :: other in types && other != id && types[other].name == newName)
      && (!ok ==> after == types)
      && (ok && id in types ==> after == types[id := types[id].(name := newName)])
      && UniqueNames(after)
  {
  }

  // ---------------------------------------------------------------------------
  // affix
  // ---------------------------------------------------------------------------

  /**
   * `INSERT ... ON CONFLICT(content) DO UPDATE SET description`: the row with
   * that content only takes the new description, or a new row is added.
   */
  function UpsertAffix(affixes: map<nat, Affix>, next: nat, content: string, description: string): map<nat, Affix> {
    if ContentHeld(affixes, content) then
      map id | id in affixes :: if affixes[id].content == content then affixes[id].(description := description) else affixes[id]
    else affixes[next := Affix(content, description)]
  }

  /** Adding existing content only changes that row's description, so contents stay unique. */
  lemma UpsertAffixMeaning(affixes: map<nat, Affix>, next: nat, content: string, description: string)
    requires UniqueContents(affixes) && forall id :: id in affixes ==> id < next
    ensures var after := UpsertAffix(affixes, next, content, description);
      && UniqueContents(after)
      && (exists id :: id in after && after[id] == Affix(content, description))
      && (ContentHeld(affixes, content) ==> after.Keys == affixes.Keys)
      && (!ContentHeld(affixes, content) ==> after.Keys == affixes.Keys + {next})
      && (forall id :: id in affixes && affixes[id].content != content ==> after[id] == affixes[id])
  {
    var after := UpsertAffix(affixes, next, content, description);
    if ContentHeld(affixes, content) {
      var id :| id in affixes && affixes[id].content == content;
      assert after[id] == Affix(content, description);
    } else {
      assert after[next] == Affix(content, description);
    }
  }

  /**
   * `UPDATE affix SET content = ?, description = ? WHERE id = ?`: False when no
   * row has the id (no row changed) or the content belongs to another row
   * (IntegrityError); otherwise both fields change.
   */
  function UpdateAffixRow(affixes: map<nat, Affix>, id: nat, content: string, description: string): (bool, map<nat, Affix>) {
    if id !in affixes then (false, affixes)
    else if exists other :: other in affixes && other != id && affixes[other].content == content then (false, affixes)
    else (true, affixes[id := Affix(content, description)])
  }

  /** An update succeeds exactly when the id exists and the content is not another row's; contents stay unique. */
  lemma UpdateAffixMeaning(affixes: map<nat, Affix>, id: nat, content: string, description: string)
    requires UniqueContents(affixes)
    ensures var (ok, after) := UpdateAffixRow(affixes, id, content, description);
      && (ok <==> id in affixes && forall other :: other in affixes && other != id ==> affixes[other].content != content)
      && (!ok ==> after == affixes)
      && (ok ==> after == affixes[id := Affix(content, description)])
      && UniqueContents(after)
  {
  }

  // ---------------------------------------------------------------------------
  // The key-value table
  // ---------------------------------------------------------------------------

  /**
   * A value given to `set`: None, a dict, list, tuple, bool, int or float goes
   * through `json.dumps`; anything else is stored as its `str()`.
   */
  datatype Value<J> = Jsonable(json: J) | Other(text: string)

  /** What `get` gives back. */
  datatype Fetched<J> = Decoded(json: J) | IntTuple(items: seq<int>) | Raw(text: string) | Default

  /** The text `set` stores for a value: `json.dumps` of a JSON value, the `str()` text of any other. */
  function Encode<J>(v: Value<J>, dumps: J -> string): (s: string)
    ensures v.Jsonable? ==> s == dumps(v.json)
    ensures v.Other? ==> s == v.text
  {
    match v
    case Jsonable(j) => dumps(j)
    case Other(text) => text
  }

  /**
   * `get` of a stored text: `json.loads` first; failing that, a "(…)" text of
   * integers is read as a tuple; anything else comes back unchanged.
   */
  function Decode<J>(text: string, loads: string -> Option<J>): (r: Fetched<J>)
    ensures r.Decoded? <==> loads(text).Some?
    ensures r.IntTuple? ==> loads(text).None? && text != [] && text[0] == '(' && text[|text| - 1] == ')'
    ensures loads(text).None? && ParseTuple(text).Some? ==> r == IntTuple(ParseTuple(text).value)
    ensures r.IntTuple? ==> ParseTuple(text) == Some(r.items)
    ensures r.Raw? ==> r.text == text && loads(text).None? && ParseTuple(text).None?
    ensures !r.Default?
  {
    match loads(text)
    case Some(j) => Decoded(j)
    case None =>
      match ParseTuple(text)
      case Some(xs) => IntTuple(xs)
      case None => Raw(text)
  }

  /** `get(key)` on the table `storage`: the default for an absent key. */
  function Fetch<J>(storage: map<string, string>, key: string, loads: string -> Option<J>): (r: Fetched<J>)
    ensures r.Default? <==> key !in storage
  {
    if key in storage then Decode(storage[key], loads) else Default
  }

  /** After `set(key, v)`, `get(key)` reads the new text, and other keys read as before. */
  lemma FetchAfterSet<J>(storage: map<string, string>, key: string, other: string, v: Value<J>,
                         dumps: J -> string, loads: string -> Option<J>)
    ensures Fetch(storage[key := Encode(v, dumps)], key, loads) == Decode(Encode(v, dumps), loads)
    ensures other != key ==> Fetch(storage[key := Encode(v, dumps)], other, loads) == Fetch(storage, other, loads)
  {
  }

  /** After `delete(key)`, `get(key)` gives the default, and other keys read as before. */
  lemma FetchAfterDelete<J>(storage: map<string, string>, key: string, other: string, loads: string -> Option<J>)
    ensures Fetch(storage - {key}, key, loads) == Default
    ensures other != key ==> Fetch(storage - {key}, other, loads) == Fetch(storage, other, loads)
  {
  }

  /** A value that goes through JSON comes back as itself whenever `json.loads` undoes `json.dumps` on it. */
  lemma JsonRoundTrip<J>(j: J, dumps: J -> string, loads: string -> Option<J>)
    requires loads(dumps(j)) == Some(j)
    ensures Decode(Encode(Jsonable(j), dumps), loads) == Decoded(j)
  {
  }

  /** A value stored as its `str()` text comes back as that text when the text is neither JSON nor a "(…)" tuple of integers. */
  lemma TextRoundTrip<J>(text: string, dumps: J -> string, loads: string -> Option<J>)
    requires loads(text).None? && ParseTuple(text).None?
    ensures Decode(Encode(Other(text), dumps), loads) == Raw(text)
  {
  }

  /** Old data written as `str()` of a tuple of integers comes back as that tuple. */
  lemma LegacyTupleRoundTrip<J>(xs: seq<int>, loads: string -> Option<J>)
    requires loads(TupleText(xs)).None?
    ensures Decode(TupleText(xs), loads) == IntTuple(xs)
  {
    ParseTupleText(xs);
  }

  // ---------------------------------------------------------------------------
  // The database
  // ---------------------------------------------------------------------------

  /** `SimpleDB`, with its tables in memory. */
  class SimpleDB {
    /** `storage`: key to stored text. */
    var storage: map<string, string>
    /** `equipment_type`: row id to row. */
    var types: map<nat, EquipmentType>
    /** `affix`: row id to row. */
    var affixes: map<nat, Affix>
    /** The next id `AUTOINCREMENT` hands out in each table; ids are never reused. */
    var nextTypeId: nat
    var nextAffixId: nat

    /** The uniqueness constraints hold and every id was handed out already. */
    ghost predicate Valid()
      reads this
    {
      && UniqueNames(types) && UniqueContents(affixes)
      && (forall id :: id in types ==> id < nextTypeId)
      && (forall id :: id in affixes ==> id < nextAffixId)
    }

    /** A new database: empty tables; ids start at 1. */
    constructor ()
      ensures Valid()
      ensures storage == map[] && types == map[] && affixes == map[]
    {
      storage := map[];
      types := map[];
      affixes := map[];
      nextTypeId := 1;
      nextAffixId := 1;
    }

    /** `save_equipment_type`: upsert by name. */
    method SaveEquipmentType(name: string, gear: Point, p1: Point, p2: Point, windowTitle: Option<string>)
      requires Valid()
      modifies this
      ensures Valid()
      ensures types == UpsertType(old(types), old(nextTypeId), EquipmentType(name, gear, p1, p2, windowTitle))
      ensures nextTypeId == if NameHeld(old(types), name) then old(nextTypeId) else old(nextTypeId) + 1
      ensures storage == old(storage) && affixes == old(affixes) && nextAffixId == old(nextAffixId)
      ensures exists id :: GetEquipmentTypeById(id) == Some(TypeDetail(id, name, gear, p1, p2, windowTitle))
      ensures forall id :: id in old(types) && old(types)[id].name == name ==>
        GetEquipmentTypeById(id) == Some(TypeDetail(id, name, gear, p1, p2, windowTitle))
      ensures !NameHeld(old(types), name) ==>
        GetEquipmentTypeById(old(nextTypeId)) == Some(TypeDetail(old(nextTypeId), name, gear, p1, p2, windowTitle))
    {
      var row := EquipmentType(name, gear, p1, p2, windowTitle);
      UpsertTypeMeaning(types, nextTypeId, row);
      if NameHeld(types, name) {
        var id :| id in types && types[id].name == name;
        types := UpsertType(types, nextTypeId, row);
        assert GetEquipmentTypeById(id) == Some(TypeDetail(id, name, gear, p1, p2, windowTitle));
      } else {
        var id := nextTypeId;
        types := UpsertType(types, nextTypeId, row);
        nextTypeId := nextTypeId + 1;
        assert GetEquipmentTypeById(id) == Some(TypeDetail(id, name, gear, p1, p2, windowTitle));
      }
    }

    /** `get_equipment_type_by_id`: the row with that id, window title included. */
    function GetEquipmentTypeById(id: nat): (r: Option<TypeDetail>)
      reads this
      ensures r.Some? <==> id in types
      ensures r.Some? ==> r.value == TypeDetail(id, types[id].name, types[id].gear, types[id].p1, types[id].p2, types[id].windowTitle)
    {
      if id in types then
        var t := types[id];
        Some(TypeDetail(id, t.name, t.gear, t.p1, t.p2, t.windowTitle))
      else None
    }

    /** `get_equipment_type`: the row with that name, without the window title. */
    method GetEquipmentType(name: string) returns (r: Option<TypeSummary>)
      ensures r.Some? <==> NameHeld(types, name)
      ensures r.Some? ==> r.value.id in types && types[r.value.id].name == name
      ensures r.Some? ==> var t := types[r.value.id]; r.value == TypeSummary(r.value.id, t.name, t.gear, t.p1, t.p2)
    {
      if NameHeld(types, name) {
        var id :| id in types && types[id].name == name;
        var t := types[id];
        r := Some(TypeSummary(id, t.name, t.gear, t.p1, t.p2));
      } else {
        r := None;
      }
    }

    /** `rename_equipment_type`. */
    method RenameEquipmentType(id: nat, newName: string) returns (ok: bool)
      requires Valid()
      modifies this
      ensures Valid()
      ensures (ok, types) == RenameType(old(types), id, newName)
      ensures storage == old(storage) && affixes == old(affixes) && nextTypeId == old(nextTypeId) && nextAffixId == old(nextAffixId)
    {
      RenameTypeMeaning(types, id, newName);
      var result := RenameType(types, id, newName);
      ok := result.0;
      types := result.1;
    }

    /** `delete_equipment_type`. */
    method DeleteEquipmentType(id: nat)
      requires Valid()
      modifies this
      ensures Valid()
      ensures types == old(types) - {id}
      ensures storage == old(storage) && affixes == old(affixes) && nextTypeId == old(nextTypeId) && nextAffixId == old(nextAffixId)
    {
      types := types - {id};
    }

    /** `add_affix`: upsert by content; reports success. */
    method AddAffix(content: string, description: string) returns (ok: bool)
      requires Valid()
      modifies this
      ensures Valid() && ok
      ensures affixes == UpsertAffix(old(affixes), old(nextAffixId), content, description)
      ensures nextAffixId == if ContentHeld(old(affixes), content) then old(nextAffixId) else old(nextAffixId) + 1
      ensures storage == old(storage) && types == old(types) && nextTypeId == old(nextTypeId)
    {
      UpsertAffixMeaning(affixes, nextAffixId, content, description);
      if ContentHeld(affixes, content) {
        affixes := UpsertAffix(affixes, nextAffixId, content, description);
      } else {
        affixes := UpsertAffix(affixes, nextAffixId, content, description);
        nextAffixId := nextAffixId + 1;
      }
      ok := true;
    }

    /** `update_affix`. */
    method UpdateAffix(id: nat, content: string, description: string) returns (ok: bool)
      requires Valid()
      modifies this
      ensures Valid()
      ensures (ok, affixes) == UpdateAffixRow(old(affixes), id, content, description)
      ensures storage == old(storage) && types == old(types) && nextTypeId == old(nextTypeId) && nextAffixId == old(nextAffixId)
    {
      UpdateAffixMeaning(affixes, id, content, description);
      var result := UpdateAffixRow(affixes, id, content, description);
      ok := result.0;
      affixes := result.1;
    }

    /** `rename_affix`: sets the description of the row with that id, if any; reports success. */
    method RenameAffix(id: nat, newName: string) returns (ok: bool)
      requires Valid()
      modifies this
      ensures Valid() && ok
      ensures affixes == if id in old(affixes) then old(affixes)[id := old(affixes)[id].(description := newName)] else old(affixes)
      ensures storage == old(storage) && types == old(types) && nextTypeId == old(nextTypeId) && nextAffixId == old(nextAffixId)
    {
      if id in affixes {
        affixes := affixes[id := affixes[id].(description := newName)];
      }
      ok := true;
    }

    /** `delete_affix`. */
    method DeleteAffix(id: nat)
      requires Valid()
      modifies this
      ensures Valid()
      ensures affixes == old(affixes) - {id}
      ensures storage == old(storage) && types == old(types) && nextTypeId == old(nextTypeId) && nextAffixId == old(nextAffixId)
    {
      affixes := affixes - {id};
    }

    /** `set`: stores the encoded value under the key, replacing any earlier one. */
    method Set<J>(key: string, value: Value<J>, dumps: J -> string)
      requires Valid()
      modifies this
      ensures Valid()
      ensures storage == old(storage)[key := Encode(value, dumps)]
      ensures types == old(types) && affixes == old(affixes) && nextTypeId == old(nextTypeId) && nextAffixId == old(nextAffixId)
    {
      storage := storage[key := Encode(value, dumps)];
    }

    /** `get`: the default for a missing key, otherwise the stored text decoded. */
    function Get<J>(key: string, loads: string -> Option<J>): (r: Fetched<J>)
      reads this
      ensures r.Default? <==> key !in storage
      ensures key in storage && loads(storage[key]).Some? ==> r == Decoded(loads(storage[key]).value)
      ensures r.Raw? ==> key in storage && r.text == storage[key]
      ensures r.IntTuple? ==> key in storage && ParseTuple(storage[key]) == Some(r.items)
      ensures key in storage && loads(storage[key]).None? && ParseTuple(storage[key]).Some? ==>
        r == IntTuple(ParseTuple(storage[key]).value)
      ensures r.Decoded? ==> key in storage && loads(storage[key]).Some?
      ensures key in storage && loads(storage[key]).None? && ParseTuple(storage[key]).None? ==> r == Raw(storage[key])
    {
      Fetch(storage, key, loads)
    }

    /** `delete`. */
    method Delete(key: string)
      requires Valid()
      modifies this
      ensures Valid()
      ensures storage == old(storage) - {key}
      ensures types == old(types) && affixes == old(affixes) && nextTypeId == old(nextTypeId) && nextAffixId == old(nextAffixId)
    {
      storage := storage - {key};
    }

    /** `list_keys(prefix)`: every stored key that starts with the prefix, each once. */
    method ListKeys(prefix: string) returns (keys: seq<string>)
      ensures forall k :: k in keys <==> k in storage && prefix <= k
      ensures forall i, j :: 0 <= i < j < |keys| ==> keys[i] != keys[j]
    {
      keys := [];
      var rest := storage.Keys;
      while rest != {}
        invariant rest <= storage.Keys
        invariant forall k :: k in keys <==> k in storage && k !in rest && prefix <= k
        invariant forall i, j :: 0 <= i < j < |keys| ==> keys[i] != keys[j]
        decreases |rest|
      {
        var k :| k in rest;
        if prefix <= k {
          keys := keys + [k];
        }
        rest := rest - {k};
      }
    }
  }
}
