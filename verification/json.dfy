/** JSON values as `json.load` hands them to the core, and the lines of the
    newline-delimited result files. */
module Json {
  /** A JSON value. Objects keep their members in file order, as the
      `items()` of the dict `json.load` builds yields them. */
  datatype Json =
    | JNull
    | JBool(b: bool)
    | JNum(n: int)
    | JString(s: string)
    | JArray(items: seq<Json>)
    | JObject(fields: seq<Field>)

  datatype Field = Field(key: string, value: Json)

  /** A flat record: one line of a result file, parsed into a dict. */
  type Record = map<string, Json>

  /** One line of a result file after `line.strip()` and `json.loads`:
      blank, a JSON object, some other JSON value, or text that is not JSON
      (kept as its stripped text). */
  datatype Line =
    | Blank
    | Object(record: Record)
    | NonObject(value: Json)
    | Invalid(text: string)

  /** Python truthiness of a JSON value: null, false, zero and empty
      strings, arrays and objects are falsy. */
  predicate Truthy(j: Json) {
    match j
    case JNull => false
    case JBool(b) => b
    case JNum(n) => n != 0
    case JString(s) => s != []
    case JArray(items) => items != []
    case JObject(fields) => fields != []
  }

  /** Sizes that decrease through the nesting of values, for termination. */
  function JSize(j: Json): nat {
    match j
    case JArray(items) => 1 + ItemsSize(items)
    case JObject(fields) => 1 + FieldsSize(fields)
    case _ => 1
  }

  function ItemsSize(items: seq<Json>): nat {
    if items == [] then 0 else ItemsSize(items[..|items| - 1]) + JSize(items[|items| - 1])
  }

  function FieldsSize(fields: seq<Field>): nat {
    if fields == [] then 0 else FieldsSize(fields[..|fields| - 1]) + FieldSize(fields[|fields| - 1])
  }

  function FieldSize(f: Field): nat {
    1 + JSize(f.value)
  }

  /** The members or elements held by a member's value are smaller than
      the member. */
  lemma FieldValueSize(f: Field)
    ensures f.value.JObject? ==> FieldsSize(f.value.fields) < FieldSize(f)
    ensures f.value.JArray? ==> ItemsSize(f.value.items) < FieldSize(f)
  {
  }

  /** A prefix of a member list is no larger than the list. */
  lemma {:induction false} FieldsSizePrefix(fields: seq<Field>, i: nat)
    requires i <= |fields|
    ensures FieldsSize(fields[..i]) <= FieldsSize(fields)
    decreases |fields|
  {
    if i < |fields| {
      assert fields[..|fields| - 1][..i] == fields[..i];
      FieldsSizePrefix(fields[..|fields| - 1], i);
    } else {
      assert fields[..i] == fields;
    }
  }

  /** Each member is smaller than the list, together with the members before it. */
  lemma FieldsSizeElement(fields: seq<Field>, i: nat)
    requires i < |fields|
    ensures FieldsSize(fields[..i]) + FieldSize(fields[i]) <= FieldsSize(fields)
  {
    FieldsSizePrefix(fields, i + 1);
    assert fields[..i + 1][..i] == fields[..i];
  }

  lemma {:induction false} ItemsSizePrefix(items: seq<Json>, i: nat)
    requires i <= |items|
    ensures ItemsSize(items[..i]) <= ItemsSize(items)
    decreases |items|
  {
    if i < |items| {
      assert items[..|items| - 1][..i] == items[..i];
      ItemsSizePrefix(items[..|items| - 1], i);
    } else {
      assert items[..i] == items;
    }
  }

  lemma ItemsSizeElement(items: seq<Json>, i: nat)
    requires i < |items|
    ensures ItemsSize(items[..i]) + JSize(items[i]) <= ItemsSize(items)
  {
    ItemsSizePrefix(items, i + 1);
    assert items[..i + 1][..i] == items[..i];
  }
}
