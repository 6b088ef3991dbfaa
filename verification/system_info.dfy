/** Pulling the host description out of the BasicInformation document: a
    depth-first search over nested objects and arrays of objects for six
    keys. `extract_system_info` (both files) lets the last occurrence win and
    does not look inside a value found under a wanted key;
    `collect_system_info` (`process_zip_files.py`) keeps the first non-null
    occurrence and looks inside values of keys it already has. */
module SystemInfo {
  import opened Json
  import opened Wrappers

  const TargetKeys: set<string> := {"Hostname", "OS", "Platform", "PlatformVersion", "Fqdn", "MACAddresses"}

  // ---------------------------------------------------------------------
  // Last occurrence wins (`extract_system_info`)
  // ---------------------------------------------------------------------

  /** The search over an object's members, in order, starting from `acc`. */
  function LastWins(fields: seq<Field>, acc: Record): Record
    decreases FieldsSize(fields), 1
  {
    if fields == [] then acc
    else
      FieldsSizeElement(fields, |fields| - 1);
      VisitLast(fields[|fields| - 1], LastWins(fields[..|fields| - 1], acc))
  }

  /** One member: a wanted key is recorded whatever its value; otherwise an
      object value is searched, and so is each object in an array value. */
  function VisitLast(f: Field, acc: Record): Record
    decreases FieldSize(f), 0
  {
    FieldValueSize(f);
    if f.key in TargetKeys then acc[f.key := f.value]
    else
      match f.value
      case JObject(fs) => LastWins(fs, acc)
      case JArray(items) => ItemsLast(items, acc)
      case _ => acc
  }

  /** The objects of an array, in order; other elements are skipped. */
  function ItemsLast(items: seq<Json>, acc: Record): Record
    decreases ItemsSize(items), 1
  {
    if items == [] then acc
    else
      ItemsSizeElement(items, |items| - 1);
      var a := ItemsLast(items[..|items| - 1], acc);
      match items[|items| - 1]
      case JObject(fs) => LastWins(fs, a)
      case _ => a
  }

  /** `search_dict` of `extract_system_info`: walks the members in order,
      assigning into the accumulated dict. */
  method SearchLast(fields: seq<Field>, acc: Record) returns (r: Record)
    ensures r == LastWins(fields, acc)
    decreases FieldsSize(fields)
  {
    r := acc;
    for i := 0 to |fields|
      invariant r == LastWins(fields[..i], acc)
    {
      var f := fields[i];
      assert fields[..i + 1][..i] == fields[..i];
      FieldsSizeElement(fields, i);
      if f.key in TargetKeys {
        r := r[f.key := f.value];
      } else if f.value.JObject? {
        r := SearchLast(f.value.fields, r);
      } else if f.value.JArray? {
        var items := f.value.items;
        ghost var before := r;
        for j := 0 to |items|
          invariant r == ItemsLast(items[..j], before)
        {
          assert items[..j + 1][..j] == items[..j];
          ItemsSizeElement(items, j);
          if items[j].JObject? {
            r := SearchLast(items[j].fields, r);
          }
        }
        assert items[..|items|] == items;
      }
    }
    assert fields[..|fields|] == fields;
  }

  /** `extract_system_info`: the search from an empty dict. */
  method ExtractSystemInfo(basicInfo: seq<Field>) returns (info: Record)
    ensures info == LastWins(basicInfo, map[])
    ensures info.Keys <= TargetKeys
  {
    info := SearchLast(basicInfo, map[]);
    LastWinsKeys(basicInfo, map[]);
  }

  /** Only wanted keys are ever added. */
  lemma {:induction false} LastWinsKeys(fields: seq<Field>, acc: Record)
    ensures LastWins(fields, acc).Keys <= acc.Keys + TargetKeys
    decreases FieldsSize(fields), 1
  {
    if fields != [] {
      FieldsSizeElement(fields, |fields| - 1);
      LastWinsKeys(fields[..|fields| - 1], acc);
      VisitLastKeys(fields[|fields| - 1], LastWins(fields[..|fields| - 1], acc));
    }
  }

  lemma {:induction false} VisitLastKeys(f: Field, acc: Record)
    ensures VisitLast(f, acc).Keys <= acc.Keys + TargetKeys
    decreases FieldSize(f), 0
  {
    FieldValueSize(f);
    if f.key !in TargetKeys {
      match f.value
      case JObject(fs) => LastWinsKeys(fs, acc);
      case JArray(items) => ItemsLastKeys(items, acc);
      case _ =>
    }
  }

  lemma {:induction false} ItemsLastKeys(items: seq<Json>, acc: Record)
    ensures ItemsLast(items, acc).Keys <= acc.Keys + TargetKeys
    decreases ItemsSize(items), 1
  {
    if items != [] {
      ItemsSizeElement(items, |items| - 1);
      ItemsLastKeys(items[..|items| - 1], acc);
      var a := ItemsLast(items[..|items| - 1], acc);
      match items[|items| - 1]
      case JObject(fs) => LastWinsKeys(fs, a);
      case _ =>
    }
  }

  /** Every occurrence overwrites: what the dict held before the search
      survives only under keys the search never meets, so starting from
      `a + b` is starting from `b` and letting `a` fill the gaps. */
  lemma {:induction false} LastWinsOverrides(fields: seq<Field>, a: Record, b: Record)
    ensures LastWins(fields, a + b) == a + LastWins(fields, b)
    decreases FieldsSize(fields), 1
  {
    if fields != [] {
      FieldsSizeElement(fields, |fields| - 1);
      LastWinsOverrides(fields[..|fields| - 1], a, b);
      VisitLastOverrides(fields[|fields| - 1], a, LastWins(fields[..|fields| - 1], b));
    }
  }

  lemma {:induction false} VisitLastOverrides(f: Field, a: Record, b: Record)
    ensures VisitLast(f, a + b) == a + VisitLast(f, b)
    decreases FieldSize(f), 0
  {
    FieldValueSize(f);
    if f.key in TargetKeys {
      assert (a + b)[f.key := f.value] == a + b[f.key := f.value];
    } else {
      match f.value
      case JObject(fs) => LastWinsOverrides(fs, a, b);
      case JArray(items) => ItemsLastOverrides(items, a, b);
      case _ =>
    }
  }

  lemma {:induction false} ItemsLastOverrides(items: seq<Json>, a: Record, b: Record)
    ensures ItemsLast(items, a + b) == a + ItemsLast(items, b)
    decreases ItemsSize(items), 1
  {
    if items != [] {
      ItemsSizeElement(items, |items| - 1);
      ItemsLastOverrides(items[..|items| - 1], a, b);
      match items[|items| - 1]
      case JObject(fs) => LastWinsOverrides(fs, a, ItemsLast(items[..|items| - 1], b));
      case _ =>
    }
  }

  /** A wanted key in the last member wins, whatever its value holds. */
  lemma LastOccurrenceWins(fields: seq<Field>, k: string, v: Json, acc: Record)
    requires k in TargetKeys
    ensures LastWins(fields + [Field(k, v)], acc) == LastWins(fields, acc)[k := v]
  {
    assert (fields + [Field(k, v)])[..|fields|] == fields;
  }

  // ---------------------------------------------------------------------
  // First non-null occurrence wins (`collect_system_info`)
  // ---------------------------------------------------------------------

  /** The search over an object's members; a key is absent from `acc` while
      its slot still holds None. */
  function FirstWins(fields: seq<Field>, acc: Record): Record
    decreases FieldsSize(fields), 1
  {
    if fields == [] then acc
    else
      FieldsSizeElement(fields, |fields| - 1);
      VisitFirst(fields[|fields| - 1], FirstWins(fields[..|fields| - 1], acc))
  }

  /** One member: a wanted key whose slot is still empty takes the value
      (a null leaves it empty) and the value is not searched; in every other
      case an object value, or each object of an array value, is searched. */
  function VisitFirst(f: Field, acc: Record): Record
    decreases FieldSize(f), 0
  {
    FieldValueSize(f);
    if f.key in TargetKeys && f.key !in acc then
      (if f.value == JNull then acc else acc[f.key := f.value])
    else
      match f.value
      case JObject(fs) => FirstWins(fs, acc)
      case JArray(items) => ItemsFirst(items, acc)
      case _ => acc
  }

  function ItemsFirst(items: seq<Json>, acc: Record): Record
    decreases ItemsSize(items), 1
  {
    if items == [] then acc
    else
      ItemsSizeElement(items, |items| - 1);
      var a := ItemsFirst(items[..|items| - 1], acc);
      match items[|items| - 1]
      case JObject(fs) => FirstWins(fs, a)
      case _ => a
  }

  /** `search_dict` of `collect_system_info`. */
  method SearchFirst(fields: seq<Field>, acc: Record) returns (r: Record)
    ensures r == FirstWins(fields, acc)
    decreases FieldsSize(fields)
  {
    r := acc;
    for i := 0 to |fields|
      invariant r == FirstWins(fields[..i], acc)
    {
      var f := fields[i];
      assert fields[..i + 1][..i] == fields[..i];
      FieldsSizeElement(fields, i);
      if f.key in TargetKeys && f.key !in r {
        if f.value != JNull {
          r := r[f.key := f.value];
        }
      } else if f.value.JObject? {
        r := SearchFirst(f.value.fields, r);
      } else if f.value.JArray? {
        var items := f.value.items;
        ghost var before := r;
        for j := 0 to |items|
          invariant r == ItemsFirst(items[..j], before)
        {
          assert items[..j + 1][..j] == items[..j];
          ItemsSizeElement(items, j);
          if items[j].JObject? {
            r := SearchFirst(items[j].fields, r);
          }
        }
        assert items[..|items|] == items;
      }
    }
    assert fields[..|fields|] == fields;
  }

  /** `collect_system_info`: the search from all-empty slots, keeping the
      filled ones. */
  method CollectSystemInfo(jsonData: seq<Field>) returns (info: Record)
    ensures info == FirstWins(jsonData, map[])
    ensures info.Keys <= TargetKeys
    ensures forall k :: k in info ==> info[k] != JNull
  {
    info := SearchFirst(jsonData, map[]);
    FirstWinsGrows(jsonData, map[]);
  }

  /** What the first-wins search does to the dict: it keeps every filled
      slot as it was and fills only wanted keys, never with null. */
  predicate Grows(acc: Record, r: Record) {
    && (forall k :: k in acc ==> k in r && r[k] == acc[k])
    && r.Keys <= acc.Keys + TargetKeys
    && (forall k :: k in r && k !in acc ==> r[k] != JNull)
  }

  lemma {:induction false} FirstWinsGrows(fields: seq<Field>, acc: Record)
    ensures Grows(acc, FirstWins(fields, acc))
    decreases FieldsSize(fields), 1
  {
    if fields != [] {
      FieldsSizeElement(fields, |fields| - 1);
      var a := FirstWins(fields[..|fields| - 1], acc);
      FirstWinsGrows(fields[..|fields| - 1], acc);
      VisitFirstGrows(fields[|fields| - 1], a);
    }
  }

  lemma {:induction false} VisitFirstGrows(f: Field, acc: Record)
    ensures Grows(acc, VisitFirst(f, acc))
    decreases FieldSize(f), 0
  {
    FieldValueSize(f);
    if !(f.key in TargetKeys && f.key !in acc) {
      match f.value
      case JObject(fs) => FirstWinsGrows(fs, acc);
      case JArray(items) => ItemsFirstGrows(items, acc);
      case _ =>
    }
  }

  lemma {:induction false} ItemsFirstGrows(items: seq<Json>, acc: Record)
    ensures Grows(acc, ItemsFirst(items, acc))
    decreases ItemsSize(items), 1
  {
    if items != [] {
      ItemsSizeElement(items, |items| - 1);
      var a := ItemsFirst(items[..|items| - 1], acc);
      ItemsFirstGrows(items[..|items| - 1], acc);
      match items[|items| - 1]
      case JObject(fs) => FirstWinsGrows(fs, a);
      case _ =>
    }
  }

  /** The search over a concatenation is the search over the second part
      started from the result of the first. */
  lemma {:induction false} FirstWinsAppend(a: seq<Field>, b: seq<Field>, acc: Record)
    ensures FirstWins(a + b, acc) == FirstWins(b, FirstWins(a, acc))
    decreases |b|
  {
    if b == [] {
      assert a + b == a;
    } else {
      var ab := a + b;
      assert ab[..|ab| - 1] == a + b[..|b| - 1];
      assert ab[|ab| - 1] == b[|b| - 1];
      FirstWinsAppend(a, b[..|b| - 1], acc);
    }
  }

  /** The first non-null value met under a wanted key is the one kept,
      whatever follows. */
  lemma FirstOccurrenceWins(k: string, v: Json, rest: seq<Field>, acc: Record)
    requires k in TargetKeys && k !in acc && v != JNull
    ensures k in FirstWins([Field(k, v)] + rest, acc) && FirstWins([Field(k, v)] + rest, acc)[k] == v
  {
    FirstWinsAppend([Field(k, v)], rest, acc);
    var a := FirstWins([Field(k, v)], acc);
    assert [Field(k, v)][..0] == [];
    assert a == acc[k := v];
    FirstWinsGrows(rest, a);
  }

  /** A wanted key met only with null values stays out of the result. */
  lemma NullNeverKept(fields: seq<Field>)
    ensures forall k :: k in FirstWins(fields, map[]) ==> FirstWins(fields, map[])[k] != JNull
  {
    FirstWinsGrows(fields, map[]);
  }

  // ---------------------------------------------------------------------
  // Reading the BasicInformation document
  // ---------------------------------------------------------------------

  /** `process_basic_information` of `collector_manager.py`: None when the
      file is missing, unreadable or not valid JSON (`parsed` is None), or
      when the document is not an object; otherwise the last-wins search,
      which may be empty. */
  function ProcessBasicInformation(fileExists: bool, parsed: Option<Json>): (info: Option<Record>)
    ensures info.Some? <==> fileExists && parsed.Some? && parsed.value.JObject?
    ensures info.Some? ==> info.value.Keys <= TargetKeys
  {
    if !fileExists || parsed.None? then None
    else
      match parsed.value
      case JObject(fields) =>
        LastWinsKeys(fields, map[]);
        Some(LastWins(fields, map[]))
      case _ => None
  }

  /** What `process_basic_information` of `process_zip_files.py` gives:
      no information, the information found, or an exception that escapes
      to the caller. */
  datatype BasicOutcome = NoInfo | Info(info: Record) | Crash

  /** `process_basic_information` of `process_zip_files.py`: a missing,
      unreadable or falsy document gives no information; a truthy document
      that is not an object raises (`items()` is called on it outside any
      handler); an object whose search finds nothing gives no information. */
  function ZipBasicInformation(fileExists: bool, parsed: Option<Json>): (o: BasicOutcome)
    ensures o.Crash? <==> fileExists && parsed.Some? && Truthy(parsed.value) && !parsed.value.JObject?
    ensures o.Info? ==> o.info != map[] && o.info.Keys <= TargetKeys
    ensures o.Info? ==> parsed.Some? && parsed.value.JObject? && ProcessBasicInformation(fileExists, parsed) == Some(o.info)
  {
    if !fileExists || parsed.None? || !Truthy(parsed.value) then NoInfo
    else
      match parsed.value
      case JObject(fields) =>
        LastWinsKeys(fields, map[]);
        var info := LastWins(fields, map[]);
        if info == map[] then NoInfo else Info(info)
      case _ => Crash
  }
}
