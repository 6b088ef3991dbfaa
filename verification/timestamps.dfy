/** Adding `<key>_epoch` fields next to timestamp strings in the result
    files: a pass over four fixed keys (`add_epoch_timestamps`) and a pass
    over every key whose name suggests a time (`detect_and_convert_timestamps`),
    both run on each result file by `add_timestamps_to_json_files`. */
module Timestamps {
  import opened Json
  import opened Wrappers
  import opened Text
  import opened Calendar
  import opened Enrichment

  const FixedKeys: seq<string> := ["visit_time", "KeyLastWriteTimestamp", "LastUpdated", "KeyMTime"]

  /** Lower-case fragments that mark a key as holding a time. */
  const TimeIndicators: seq<string> :=
    ["time", "date", "timestamp", "modified", "created", "accessed", "updated", "last", "mtime", "ctime", "atime"]

  const EpochSuffix: string := "_epoch"

  function EpochKey(k: string): (e: string)
    ensures |e| == |k| + |EpochSuffix| && e[..|k|] == k
  {
    k + EpochSuffix
  }

  lemma EpochKeyInjective(a: string, b: string)
    requires EpochKey(a) == EpochKey(b)
    ensures a == b
  {
    assert a == EpochKey(a)[..|a|];
  }

  /** The epoch seconds of the value under `key`, when that value is a
      string in the timestamp format. */
  function Conversion(r: Record, key: string): Option<int> {
    if key in r && r[key].JString? then ConvertIsoToEpoch(r[key].s) else None
  }

  // ---------------------------------------------------------------------
  // The fixed-key pass
  // ---------------------------------------------------------------------

  /** The record after visiting `keys` in order, each convertible value
      getting (or overwriting) its `_epoch` field. */
  function StampKeys(r: Record, keys: seq<string>): Record {
    if keys == [] then r
    else
      var a := StampKeys(r, keys[..|keys| - 1]);
      var k := keys[|keys| - 1];
      match Conversion(a, k)
      case Some(e) => a[EpochKey(k) := JNum(e)]
      case None => a
  }

  /** No key of the list is the `_epoch` field of another. */
  predicate NoEpochAmong(keys: seq<string>) {
    forall i, j :: 0 <= i < |keys| && 0 <= j < |keys| ==> EpochKey(keys[i]) != keys[j]
  }

  /** `r` and `out` agree at `k`. */
  predicate AgreeAt(r: Record, out: Record, k: string) {
    (k in out <==> k in r) && (k in r ==> out[k] == r[k])
  }

  lemma NoEpochAmongPrefix(keys: seq<string>, n: nat)
    requires NoEpochAmong(keys) && n <= |keys|
    ensures NoEpochAmong(keys[..n])
  {
    var init := keys[..n];
    forall i, j | 0 <= i < |init| && 0 <= j < |init| ensures EpochKey(init[i]) != init[j] {
      assert init[i] == keys[i] && init[j] == keys[j];
    }
  }

  /** A field that is not the `_epoch` field of a converted key is left as
      it was by the fixed pass. */
  lemma {:induction false} StampKeysElsewhere(r: Record, keys: seq<string>, q: string)
    requires NoEpochAmong(keys)
    requires forall i :: 0 <= i < |keys| && EpochKey(keys[i]) == q ==> Conversion(r, keys[i]).None?
    ensures AgreeAt(r, StampKeys(r, keys), q)
    decreases |keys|, 1
  {
    if keys != [] {
      var n := |keys| - 1;
      var init, k := keys[..n], keys[n];
      NoEpochAmongPrefix(keys, n);
      forall i | 0 <= i < |init| && EpochKey(init[i]) == q ensures Conversion(r, init[i]).None? {
        assert init[i] == keys[i];
      }
      StampKeysElsewhere(r, init, q);
      if q == EpochKey(k) {
        StampKeysReads(r, keys);
      }
    }
  }

  /** The last key's value is read unchanged by the fixed pass: no earlier
      key's `_epoch` field is a listed key. */
  lemma {:induction false} StampKeysReads(r: Record, keys: seq<string>)
    requires NoEpochAmong(keys) && keys != []
    ensures Conversion(StampKeys(r, keys[..|keys| - 1]), keys[|keys| - 1]) == Conversion(r, keys[|keys| - 1])
    decreases |keys|, 0
  {
    var n := |keys| - 1;
    var init, k := keys[..n], keys[n];
    NoEpochAmongPrefix(keys, n);
    assert forall i :: 0 <= i < |init| ==> EpochKey(init[i]) != k by {
      forall i | 0 <= i < |init| ensures EpochKey(init[i]) != k {
        assert init[i] == keys[i];
      }
    }
    StampKeysElsewhere(r, init, k);
  }

  /** Every listed key holding a convertible string gets its epoch seconds
      under `<key>_epoch`. */
  lemma {:induction false} StampKeysWritten(r: Record, keys: seq<string>, i: nat)
    requires NoEpochAmong(keys) && i < |keys| && Conversion(r, keys[i]).Some?
    ensures EpochKey(keys[i]) in StampKeys(r, keys)
    ensures StampKeys(r, keys)[EpochKey(keys[i])] == JNum(Conversion(r, keys[i]).value)
  {
    var n := |keys| - 1;
    var init, k := keys[..n], keys[n];
    StampKeysReads(r, keys);
    if i < n {
      NoEpochAmongPrefix(keys, n);
      assert init[i] == keys[i];
      StampKeysWritten(r, init, i);
      if EpochKey(keys[i]) == EpochKey(k) {
        EpochKeyInjective(keys[i], k);
      }
    }
  }

  lemma FixedKeysApart()
    ensures NoEpochAmong(FixedKeys)
  {
    forall i, j | 0 <= i < |FixedKeys| && 0 <= j < |FixedKeys|
      ensures EpochKey(FixedKeys[i]) != FixedKeys[j]
    {
      assert |FixedKeys[j]| in {10, 21, 11, 8};
      assert |EpochKey(FixedKeys[i])| in {16, 27, 17, 14};
    }
  }

  /** The fixed pass on one record: each of the four keys holding a
      convertible string gets `<key>_epoch` set to its epoch seconds
      (replacing any value already there) ... */
  lemma FixedPassConverts(r: Record, i: nat)
    requires i < |FixedKeys| && Conversion(r, FixedKeys[i]).Some?
    ensures EpochKey(FixedKeys[i]) in StampKeys(r, FixedKeys)
    ensures StampKeys(r, FixedKeys)[EpochKey(FixedKeys[i])] == JNum(Conversion(r, FixedKeys[i]).value)
  {
    FixedKeysApart();
    StampKeysWritten(r, FixedKeys, i);
  }

  /** ... and every other field is left as it was. */
  lemma FixedPassKeeps(r: Record, q: string)
    requires forall i :: 0 <= i < |FixedKeys| && EpochKey(FixedKeys[i]) == q ==> Conversion(r, FixedKeys[i]).None?
    ensures AgreeAt(r, StampKeys(r, FixedKeys), q)
  {
    FixedKeysApart();
    StampKeysElsewhere(r, FixedKeys, q);
  }

  /** The loop of `add_epoch_timestamps` over the fixed keys of one record. */
  method StampFixed(obj: Record) returns (out: Record)
    ensures out == StampKeys(obj, FixedKeys)
  {
    out := obj;
    for i := 0 to |FixedKeys|
      invariant out == StampKeys(obj, FixedKeys[..i])
    {
      var key := FixedKeys[i];
      StampKeysPrefix(obj, FixedKeys, i);
      if key in out && out[key].JString? {
        var epoch := ConvertIsoToEpoch(out[key].s);
        if epoch.Some? {
          out := out[EpochKey(key) := JNum(epoch.value)];
        }
      }
    }
    assert FixedKeys[..|FixedKeys|] == FixedKeys;
  }

  /** Visiting the keys up to `i` is visiting those before it, then the
      `i`-th. */
  lemma StampKeysPrefix(r: Record, keys: seq<string>, i: nat)
    requires i < |keys|
    ensures var a := StampKeys(r, keys[..i]);
      && (Conversion(a, keys[i]).Some? ==> StampKeys(r, keys[..i + 1]) == a[EpochKey(keys[i]) := JNum(Conversion(a, keys[i]).value)])
      && (Conversion(a, keys[i]).None? ==> StampKeys(r, keys[..i + 1]) == a)
  {
    assert keys[..i + 1][..i] == keys[..i];
  }

  /** Whether evaluating `key in value` and `value[key]` for some fixed key
      raises on a line that is JSON but not an object: membership in an
      array that holds the key as a string, a substring of a string, and
      any use of a number, boolean or null. (An object never appears here.) */
  predicate FixedRaises(value: Json) {
    match value
    case JArray(items) => exists i, j :: 0 <= i < |items| && 0 <= j < |FixedKeys| && items[i] == JString(FixedKeys[j])
    case JString(s) => exists j :: 0 <= j < |FixedKeys| && Contains(s, FixedKeys[j])
    case JObject(_) => false
    case _ => true
  }

  predicate FixedFails(lines: seq<Line>) {
    exists i :: 0 <= i < |lines| && lines[i].NonObject? && FixedRaises(lines[i].value)
  }

  /** The lines the fixed pass writes back, when no line raises: blank
      lines dropped, objects stamped, everything else kept. */
  function FixedLines(lines: seq<Line>): (out: seq<Line>)
    requires !FixedFails(lines)
    ensures |out| == NonBlankCount(lines)
  {
    if lines == [] then []
    else
      var n := |lines| - 1;
      assert !FixedFails(lines[..n]) by {
        forall i | 0 <= i < n && lines[..n][i].NonObject? ensures !FixedRaises(lines[..n][i].value) {
          assert lines[..n][i] == lines[i];
        }
      }
      NonBlankCountSnoc(lines);
      FixedLines(lines[..n]) + FixedLine(lines[n])
  }

  function FixedLine(line: Line): seq<Line> {
    match line
    case Blank => []
    case Object(r) => [Object(StampKeys(r, FixedKeys))]
    case _ => [line]
  }

  lemma {:induction false} NonBlankCountSnoc(lines: seq<Line>)
    requires lines != []
    ensures NonBlankCount(lines) == NonBlankCount(lines[..|lines| - 1]) + (if lines[|lines| - 1].Blank? then 0 else 1)
    decreases |lines|
  {
    if |lines| > 1 {
      assert lines[1..][..|lines| - 2] == lines[..|lines| - 1][1..];
      NonBlankCountSnoc(lines[1..]);
    }
  }

  /** The loop of `add_epoch_timestamps` over the lines of a file: None
      when some line raises, otherwise the lines to write back. */
  method FixedPassLines(lines: seq<Line>) returns (updated: Option<seq<Line>>)
    ensures updated.None? <==> FixedFails(lines)
    ensures updated.Some? ==> !FixedFails(lines) && updated.value == FixedLines(lines)
  {
    var acc: seq<Line> := [];
    for i := 0 to |lines|
      invariant !FixedFails(lines[..i])
      invariant acc == FixedLines(lines[..i])
    {
      var line := lines[i];
      if line.NonObject? && FixedRaises(line.value) {
        assert lines[i].NonObject? && FixedRaises(lines[i].value);
        return None;
      }
      ghost var before := acc;
      match line {
        case Blank =>
        case Object(r) =>
          var stamped := StampFixed(r);
          acc := acc + [Object(stamped)];
        case _ =>
          acc := acc + [line];
      }
      FixedStep(lines, i, before, acc);
    }
    assert lines[..|lines|] == lines;
    return Some(acc);
  }

  /** One more line of the fixed pass: the written prefix grows by that
      line's share. */
  lemma FixedStep(lines: seq<Line>, i: nat, before: seq<Line>, after: seq<Line>)
    requires i < |lines| && !(lines[i].NonObject? && FixedRaises(lines[i].value)) && !FixedFails(lines[..i])
    requires before == FixedLines(lines[..i])
    requires lines[i].Blank? ==> after == before
    requires lines[i].Object? ==> after == before + [Object(StampKeys(lines[i].record, FixedKeys))]
    requires !lines[i].Blank? && !lines[i].Object? ==> after == before + [lines[i]]
    ensures !FixedFails(lines[..i + 1])
    ensures after == FixedLines(lines[..i + 1])
  {
    FixedPrefixSafe(lines, i);
    var p := lines[..i + 1];
    assert p[..i] == lines[..i] && p[i] == lines[i];
    assert FixedLines(p) == FixedLines(lines[..i]) + FixedLine(lines[i]);
    if lines[i].Blank? {
      assert after == before + [];
    }
  }

  lemma FixedPrefixSafe(lines: seq<Line>, i: nat)
    requires i < |lines| && !(lines[i].NonObject? && FixedRaises(lines[i].value)) && !FixedFails(lines[..i])
    ensures !FixedFails(lines[..i + 1])
  {
    var p := lines[..i + 1];
    forall j | 0 <= j < |p| && p[j].NonObject? ensures !FixedRaises(p[j].value) {
      if j < i { assert p[j] == lines[..i][j]; }
    }
  }

  /** What `add_epoch_timestamps` leaves in a file: always rewritten,
      unless it cannot be read or some line raises. */
  function FixedFile(f: JsonFile): (g: JsonFile)
    ensures g.name == f.name
  {
    if f.content.Unreadable? || FixedFails(f.content.lines) then f
    else JsonFile(f.name, Lines(Rendered(FixedLines(f.content.lines))))
  }

  /** `add_epoch_timestamps`: read the file, run the fixed pass over its
      lines, write the result back; an exception leaves the file as it was. */
  method AddEpochTimestamps(f: JsonFile) returns (g: JsonFile)
    ensures g == FixedFile(f)
  {
    if f.content.Unreadable? {
      return f;
    }
    var fixed := FixedPassLines(f.content.lines);
    if fixed.None? {
      return f;
    }
    return JsonFile(f.name, Lines(Rendered(fixed.value)));
  }

  // ---------------------------------------------------------------------
  // The heuristic pass
  // ---------------------------------------------------------------------

  /** A key that, lower-cased, contains a time indicator. */
  predicate IsTimeKey(k: string) {
    exists i :: 0 <= i < |TimeIndicators| && Contains(ToLower(k), TimeIndicators[i])
  }

  /** A key the heuristic pass converts: a time key, with no `_epoch`
      sibling yet, holding a convertible string. */
  predicate Eligible(r: Record, k: string) {
    k in r && IsTimeKey(k) && EpochKey(k) !in r && Conversion(r, k).Some?
  }

  /** The `_epoch` fields the pass adds for the keys in `ks`. */
  function NewFields(r: Record, ks: set<string>): set<string> {
    set k | k in ks && Eligible(r, k) :: EpochKey(k)
  }

  /** A field name ending in `_epoch`, and the key it is named after. */
  predicate Suffixed(q: string) {
    |q| >= |EpochSuffix| && q[|q| - |EpochSuffix|..] == EpochSuffix
  }

  function Base(q: string): string
    requires Suffixed(q)
  {
    q[..|q| - |EpochSuffix|]
  }

  lemma EpochKeyBase(k: string)
    ensures Suffixed(EpochKey(k)) && Base(EpochKey(k)) == k
  {
    assert EpochKey(k)[|k|..] == EpochSuffix;
  }

  lemma BaseEpochKey(q: string)
    requires Suffixed(q)
    ensures EpochKey(Base(q)) == q
  {
    assert q == q[..|q| - |EpochSuffix|] + q[|q| - |EpochSuffix|..];
  }

  lemma NewFieldsMember(r: Record, ks: set<string>, q: string)
    ensures q in NewFields(r, ks) <==> Suffixed(q) && Base(q) in ks && Eligible(r, Base(q))
  {
    if q in NewFields(r, ks) {
      var b :| b in ks && Eligible(r, b) && q == EpochKey(b);
      EpochKeyBase(b);
    }
    if Suffixed(q) && Base(q) in ks && Eligible(r, Base(q)) {
      BaseEpochKey(q);
    }
  }

  /** The epoch value stored under `q`, read off the key it is named after. */
  function StampValue(r: Record, q: string): int {
    if !Suffixed(q) then 0
    else
      match Conversion(r, Base(q))
      case Some(e) => e
      case None => 0
  }

  function Stamps(r: Record, ks: set<string>): map<string, Json> {
    map q | q in NewFields(r, ks) :: JNum(StampValue(r, q))
  }

  /** The record after the heuristic pass, independent of key order: the
      original fields plus one `_epoch` field per eligible key. */
  function DetectRecord(r: Record): Record {
    r + Stamps(r, r.Keys)
  }

  /** No field of the record is among the added ones. */
  lemma StampsFresh(r: Record, ks: set<string>, k: string)
    requires k in r
    ensures k !in Stamps(r, ks)
  {
    NewFieldsMember(r, ks, k);
    if Suffixed(k) && Base(k) in ks && Eligible(r, Base(k)) {
      BaseEpochKey(k);
    }
  }

  /** Each eligible key gets its epoch seconds; nothing else changes. */
  lemma DetectRecordEffect(r: Record, k: string)
    ensures Eligible(r, k) ==> EpochKey(k) in DetectRecord(r) && DetectRecord(r)[EpochKey(k)] == JNum(Conversion(r, k).value)
    ensures k in r ==> k in DetectRecord(r) && DetectRecord(r)[k] == r[k]
    ensures k in DetectRecord(r) && k !in r ==> Suffixed(k) && Eligible(r, Base(k)) && DetectRecord(r)[k].JNum?
  {
    EpochKeyBase(k);
    NewFieldsMember(r, r.Keys, EpochKey(k));
    NewFieldsMember(r, r.Keys, k);
    if k in r {
      StampsFresh(r, r.Keys, k);
    }
  }

  /** After the heuristic pass no key is eligible: a second pass converts
      nothing. */
  lemma DetectLeavesNothing(r: Record, k: string)
    ensures !Eligible(DetectRecord(r), k)
  {
    DetectRecordEffect(r, k);
    DetectRecordEffect(r, EpochKey(k));
  }

  /** One step of the key loop: the fields added so far belong to other
      keys, so the key's value and the presence of its `_epoch` field are
      those of the original record. */
  lemma DetectStepReads(obj: Record, done: set<string>, key: string)
    requires key in obj && key !in done
    ensures EpochKey(key) in obj + Stamps(obj, done) <==> EpochKey(key) in obj
    ensures (obj + Stamps(obj, done))[key] == obj[key]
  {
    EpochKeyBase(key);
    NewFieldsMember(obj, done, EpochKey(key));
    StampsFresh(obj, done, key);
  }

  /** The step adds exactly the key's own `_epoch` field when it is eligible. */
  lemma DetectStepAdds(obj: Record, done: set<string>, key: string)
    requires key in obj && key !in done
    ensures Stamps(obj, done + {key}) ==
      if Eligible(obj, key) then Stamps(obj, done)[EpochKey(key) := JNum(Conversion(obj, key).value)]
      else Stamps(obj, done)
  {
    EpochKeyBase(key);
    var before, after := Stamps(obj, done), Stamps(obj, done + {key});
    var expected := if Eligible(obj, key) then before[EpochKey(key) := JNum(Conversion(obj, key).value)] else before;
    forall q
      ensures q in after <==> q in expected
      ensures q in after ==> after[q] == expected[q]
    {
      NewFieldsMember(obj, done, q);
      NewFieldsMember(obj, done + {key}, q);
      if Suffixed(q) && Base(q) == key {
        BaseEpochKey(q);
      }
    }
  }

  /** The loop of `detect_and_convert_timestamps` over the keys of one
      record, in whatever order: it yields `DetectRecord` and reports
      whether it converted anything. */
  method DetectInRecord(obj: Record) returns (out: Record, converted: bool)
    ensures out == DetectRecord(obj)
    ensures converted <==> HasEligible(obj)
  {
    out := obj;
    converted := false;
    var remaining := obj.Keys;
    ghost var done: set<string> := {};
    assert NewFields(obj, done) == {};
    while remaining != {}
      invariant remaining <= obj.Keys && done == obj.Keys - remaining
      invariant out == obj + Stamps(obj, done)
      invariant converted <==> NewFields(obj, done) != {}
      decreases |remaining|
    {
      var key :| key in remaining;
      DetectStepReads(obj, done, key);
      ghost var before, wasConverted := out, converted;
      if IsTimeKey(key) && EpochKey(key) !in out && out[key].JString? {
        var epoch := ConvertIsoToEpoch(out[key].s);
        assert epoch == Conversion(obj, key);
        if epoch.Some? {
          assert Eligible(obj, key);
          out := out[EpochKey(key) := JNum(epoch.value)];
          converted := true;
        } else {
          assert !Eligible(obj, key);
        }
      } else {
        assert !Eligible(obj, key);
      }
      DetectLoopStep(obj, done, key, before, out, wasConverted, converted);
      MoveOne(obj.Keys, remaining, done, key);
      remaining := remaining - {key};
      done := done + {key};
    }
    NewFieldsSome(obj);
  }

  /** The state after one iteration of the key loop. */
  lemma DetectLoopStep(obj: Record, done: set<string>, key: string, before: Record, after: Record, was: bool, now: bool)
    requires key in obj && key !in done
    requires before == obj + Stamps(obj, done)
    requires after == if Eligible(obj, key) then before[EpochKey(key) := JNum(Conversion(obj, key).value)] else before
    requires was <==> NewFields(obj, done) != {}
    requires now <==> was || Eligible(obj, key)
    ensures after == obj + Stamps(obj, done + {key})
    ensures now <==> NewFields(obj, done + {key}) != {}
  {
    DetectStepAdds(obj, done, key);
    EpochKeyBase(key);
    NewFieldsMember(obj, done + {key}, EpochKey(key));
    if Eligible(obj, key) {
      UnionUpdate(obj, Stamps(obj, done), EpochKey(key), JNum(Conversion(obj, key).value));
    } else {
      assert NewFields(obj, done + {key}) == NewFields(obj, done) by {
        forall q ensures q in NewFields(obj, done + {key}) <==> q in NewFields(obj, done) {
          NewFieldsMember(obj, done + {key}, q);
          NewFieldsMember(obj, done, q);
        }
      }
    }
  }

  /** The pass converts something exactly when some key is eligible. */
  lemma NewFieldsSome(r: Record)
    ensures NewFields(r, r.Keys) != {} <==> HasEligible(r)
  {
    if k :| Eligible(r, k) {
      EpochKeyBase(k);
      NewFieldsMember(r, r.Keys, EpochKey(k));
    }
    if q :| q in NewFields(r, r.Keys) {
      NewFieldsMember(r, r.Keys, q);
    }
  }

  lemma UnionUpdate(a: Record, b: Record, k: string, v: Json)
    requires k !in a
    ensures (a + b)[k := v] == a + b[k := v]
  {
  }

  // ---------------------------------------------------------------------
  // The heuristic pass over a file
  // ---------------------------------------------------------------------

  predicate HasEligible(r: Record) {
    exists k :: k in r && Eligible(r, k)
  }

  /** Whether a line gets a conversion: an object with an eligible key. */
  predicate LineConverts(line: Line) {
    line.Object? && HasEligible(line.record)
  }

  /** Whether some line of the file gets a conversion. */
  predicate Converts(lines: seq<Line>) {
    exists i :: 0 <= i < |lines| && LineConverts(lines[i])
  }

  /** The lines the heuristic pass would write back: blank lines dropped,
      objects given their `_epoch` fields, invalid text kept. */
  function DetectLines(lines: seq<Line>): (out: seq<Line>)
    requires !HasNonObject(lines)
    ensures |out| == NonBlankCount(lines)
    ensures forall i :: 0 <= i < |out| ==> out[i].Invalid? || (out[i].Object? && !HasEligible(out[i].record))
  {
    if lines == [] then []
    else
      var n := |lines| - 1;
      assert !HasNonObject(lines[..n]) by {
        forall i | 0 <= i < n ensures !lines[..n][i].NonObject? {
          assert lines[..n][i] == lines[i];
        }
      }
      NonBlankCountSnoc(lines);
      var one := match lines[n]
        case Object(r) =>
          assert !HasEligible(DetectRecord(r)) by {
            forall k ensures !Eligible(DetectRecord(r), k) { DetectLeavesNothing(r, k); }
          }
          [Object(DetectRecord(r))]
        case Blank => []
        case _ => [lines[n]];
      DetectLines(lines[..n]) + one
  }

  /** The loop of `detect_and_convert_timestamps` over the lines of a file:
      None when some line is JSON but not an object (`keys()` raises),
      otherwise the updated lines and whether any conversion was made. */
  method DetectPassLines(lines: seq<Line>) returns (updated: Option<seq<Line>>, conversionsMade: bool)
    ensures updated.None? <==> HasNonObject(lines)
    ensures updated.Some? ==> !HasNonObject(lines) && updated.value == DetectLines(lines) && (conversionsMade <==> Converts(lines))
  {
    var acc: seq<Line> := [];
    conversionsMade := false;
    for i := 0 to |lines|
      invariant !HasNonObject(lines[..i])
      invariant acc == DetectLines(lines[..i])
      invariant conversionsMade <==> Converts(lines[..i])
    {
      var line := lines[i];
      assert lines[..i + 1][..i] == lines[..i];
      if line.NonObject? {
        assert lines[i].NonObject?;
        return None, conversionsMade;
      }
      assert !HasNonObject(lines[..i + 1]) by {
        var p := lines[..i + 1];
        forall j | 0 <= j < |p| ensures !p[j].NonObject? {
          if j < i { assert p[j] == lines[..i][j]; }
        }
      }
      ConvertsSnoc(lines[..i + 1]);
      match line
      case Blank =>
      case Object(r) =>
        var stamped, converted := DetectInRecord(r);
        acc := acc + [Object(stamped)];
        conversionsMade := conversionsMade || converted;
      case _ =>
        acc := acc + [line];
    }
    assert lines[..|lines|] == lines;
    return Some(acc), conversionsMade;
  }

  lemma ConvertsSnoc(lines: seq<Line>)
    requires lines != []
    ensures var n := |lines| - 1;
      Converts(lines) <==> Converts(lines[..n]) || LineConverts(lines[n])
  {
    var n := |lines| - 1;
    ConsOfSnoc(lines);
    ExistsSnoc(lines, lines[..n], lines[n], LineConverts);
  }

  /** `detect_and_convert_timestamps` on one file: rewritten only when some
      conversion was made. */
  function DetectFile(f: JsonFile): (g: JsonFile)
    ensures g.name == f.name
  {
    if f.content.Unreadable? || HasNonObject(f.content.lines) || !Converts(f.content.lines) then f
    else JsonFile(f.name, Lines(Rendered(DetectLines(f.content.lines))))
  }

  /** `detect_and_convert_timestamps`: read the file, run the heuristic pass
      over its lines, and write the result back only when some conversion
      was made; an exception leaves the file as it was. */
  method DetectAndConvertTimestamps(f: JsonFile) returns (g: JsonFile)
    ensures g == DetectFile(f)
  {
    if f.content.Unreadable? {
      return f;
    }
    var detected, conversionsMade := DetectPassLines(f.content.lines);
    if detected.None? || !conversionsMade {
      return f;
    }
    return JsonFile(f.name, Lines(Rendered(detected.value)));
  }

  /** Running the heuristic pass on its own output changes nothing: the
      file is not rewritten a second time. */
  lemma DetectFileIdempotent(f: JsonFile)
    ensures DetectFile(DetectFile(f)) == DetectFile(f)
  {
    var g := DetectFile(f);
    if g != f {
      var out := DetectLines(f.content.lines);
      var lines := Rendered(out);
      assert !Converts(lines);
    }
  }

  // ---------------------------------------------------------------------
  // Both passes over the results directory
  // ---------------------------------------------------------------------

  /** What `add_timestamps_to_json_files` leaves in one file: the fixed
      pass, then the heuristic pass on what it wrote, for every `*.json`
      file but BasicInformation. */
  function TimestampFile(f: JsonFile): (g: JsonFile)
    ensures g.name == f.name
  {
    if IsResultName(f.name) then DetectFile(FixedFile(f)) else f
  }

  /** `add_timestamps_to_json_files`: both passes on every result file;
      nothing happens when there is no `results` directory. */
  method AddTimestampsToJsonFiles(resultsDirExists: bool, files: seq<JsonFile>) returns (after: seq<JsonFile>)
    ensures |after| == |files|
    ensures forall i :: 0 <= i < |files| ==> after[i] == if resultsDirExists then TimestampFile(files[i]) else files[i]
  {
    after := files;
    if !resultsDirExists {
      return;
    }
    for i := 0 to |files|
      invariant |after| == |files|
      invariant forall j :: 0 <= j < i ==> after[j] == TimestampFile(files[j])
      invariant forall j :: i <= j < |files| ==> after[j] == files[j]
    {
      var f := files[i];
      if IsResultName(f.name) {
        var g := AddEpochTimestamps(f);
        g := DetectAndConvertTimestamps(g);
        after := after[i := g];
      }
    }
  }
}
