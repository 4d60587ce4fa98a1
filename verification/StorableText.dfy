/** `unstorable_text_location`: find the first place in a JSON-like value that
    PostgreSQL text cannot hold (a NUL or an unpaired surrogate). */
module StorableText {
  import opened Prelude

  /** Python strings are sequences of code points, lone surrogates included. */
  newtype CodePoint = x: int | 0 <= x < 0x110000

  type Text = seq<CodePoint>

  /** Dictionary keys may be strings or any other hashable value. */
  datatype Key = TextKey(text: Text) | OtherKey(tag: int)

  datatype Json =
    | Scalar(tag: int)
    | Str(text: Text)
    | Obj(fields: seq<Field>)
    | Arr(items: seq<Json>)

  datatype Field = Field(key: Key, value: Json)

  datatype PathStep = KeyStep(key: Key) | IndexStep(index: nat)

  type Path = seq<PathStep>

  predicate BadCode(c: CodePoint) {
    c == 0 || 0xd800 <= c <= 0xdfff
  }

  /** `_UNSTORABLE_TEXT.search(text)` */
  predicate Unstorable(text: Text) {
    exists i :: 0 <= i < |text| && BadCode(text[i])
  }

  /** Offending text holds a NUL, or a code point that UTF-8 has no bytes for. */
  lemma UnstorableExactly(text: Text)
    ensures Unstorable(text) <==> 0 in text || exists c: CodePoint :: 0xd800 <= c <= 0xdfff && c in text
  {
    forall i | 0 <= i < |text| && BadCode(text[i])
      ensures 0 in text || exists c: CodePoint :: 0xd800 <= c <= 0xdfff && c in text
    {
      assert text[i] in text;
    }
  }

  predicate BadKey(key: Key) {
    key.TextKey? && Unstorable(key.text)
  }

  /** The tree predicate: no key and no string anywhere below is unstorable. */
  ghost predicate Clean(value: Json) {
    match value
    case Scalar(_) => true
    case Str(text) => !Unstorable(text)
    case Obj(fields) => forall i :: 0 <= i < |fields| ==> !BadKey(fields[i].key) && Clean(fields[i].value)
    case Arr(items) => forall i :: 0 <= i < |items| ==> Clean(items[i])
  }

  /** An unstorable string, or an object with an unstorable key. */
  ghost predicate Offending(item: Json) {
    || (item.Str? && Unstorable(item.text))
    || (item.Obj? && exists i :: 0 <= i < |item.fields| && BadKey(item.fields[i].key))
  }

  /** `text` is a string or a string key somewhere in the value. */
  ghost predicate Occurs(value: Json, text: Text) {
    match value
    case Scalar(_) => false
    case Str(t) => t == text
    case Obj(fields) =>
      exists i :: 0 <= i < |fields| && (fields[i].key == TextKey(text) || Occurs(fields[i].value, text))
    case Arr(items) => exists i :: 0 <= i < |items| && Occurs(items[i], text)
  }

  /** A value is clean exactly when no string and no string key anywhere in it holds a
      NUL or an unpaired surrogate. */
  lemma {:induction false} CleanExactly(value: Json)
    ensures Clean(value) <==> AllStorable(value)
  {
    forall text ensures Unstorable(text) <==> !Storable(text) {
      UnstorableExactly(text);
    }
    match value
    case Scalar(_) =>
    case Str(t) => assert Occurs(value, t);
    case Obj(fields) =>
      forall i | 0 <= i < |fields| ensures Clean(fields[i].value) <==> AllStorable(fields[i].value) {
        CleanExactly(fields[i].value);
      }
      forall i, text | 0 <= i < |fields| && (fields[i].key == TextKey(text) || Occurs(fields[i].value, text))
        ensures Occurs(value, text)
      {}
    case Arr(items) =>
      forall i | 0 <= i < |items| ensures Clean(items[i]) <==> AllStorable(items[i]) {
        CleanExactly(items[i]);
      }
      forall i, text | 0 <= i < |items| && Occurs(items[i], text) ensures Occurs(value, text) {}
  }

  ghost predicate Storable(text: Text) {
    0 !in text && forall c: CodePoint :: c in text ==> !(0xd800 <= c <= 0xdfff)
  }

  ghost predicate AllStorable(value: Json) {
    forall text :: Occurs(value, text) ==> Storable(text)
  }

  /** `item` is what following `path` from `value` finds. */
  ghost predicate LeadsTo(value: Json, path: Path, item: Json)
    decreases path
  {
    if path == [] then value == item
    else match path[0]
      case KeyStep(key) =>
        value.Obj? && exists i :: 0 <= i < |value.fields| && value.fields[i].key == key
                               && LeadsTo(value.fields[i].value, path[1..], item)
      case IndexStep(index) =>
        value.Arr? && index < |value.items| && LeadsTo(value.items[index], path[1..], item)
  }

  /** A child of a reached object or list is reached by one more step. */
  lemma {:induction false} Descend(value: Json, path: Path, item: Json, step: PathStep, child: Json)
    requires LeadsTo(value, path, item)
    requires LeadsTo(item, [step], child)
    ensures LeadsTo(value, path + [step], child)
    decreases path
  {
    if path == [] {
      assert path + [step] == [step];
    } else {
      assert (path + [step])[1..] == path[1..] + [step];
      match path[0]
      case KeyStep(key) =>
        var i :| 0 <= i < |value.fields| && value.fields[i].key == key
              && LeadsTo(value.fields[i].value, path[1..], item);
        Descend(value.fields[i].value, path[1..], item, step, child);
      case IndexStep(index) =>
        Descend(value.items[index], path[1..], item, step, child);
    }
  }

  /** What is reached inside a clean value is clean, hence never offending. */
  lemma {:induction false} CleanBelow(value: Json, path: Path, item: Json)
    requires Clean(value) && LeadsTo(value, path, item)
    ensures Clean(item) && !Offending(item)
    decreases path
  {
    if path != [] {
      match path[0]
      case KeyStep(key) =>
        var i :| 0 <= i < |value.fields| && value.fields[i].key == key
              && LeadsTo(value.fields[i].value, path[1..], item);
        CleanBelow(value.fields[i].value, path[1..], item);
      case IndexStep(index) =>
        CleanBelow(value.items[index], path[1..], item);
    }
  }

  /** An unclean value has an offending item at some path. */
  lemma {:induction false} UncleanHasWitness(value: Json) returns (path: Path, item: Json)
    requires !Clean(value)
    ensures LeadsTo(value, path, item) && Offending(item)
    decreases value
  {
    if Offending(value) {
      return [], value;
    }
    match value
    case Obj(fields) =>
      var i :| 0 <= i < |fields| && !Clean(fields[i].value);
      var p, it := UncleanHasWitness(fields[i].value);
      path, item := [KeyStep(fields[i].key)] + p, it;
      assert path[1..] == p;
      assert 0 <= i < |value.fields| && value.fields[i].key == path[0].key;
      assert LeadsTo(value.fields[i].value, path[1..], item);
    case Arr(items) =>
      var i :| 0 <= i < |items| && !Clean(items[i]);
      var p, it := UncleanHasWitness(items[i]);
      path, item := [IndexStep(i)] + p, it;
      assert path[1..] == p;
    case Str(_) => assert false;
    case Scalar(_) => assert false;
  }

  /** The recursive predicate says exactly that no path reaches an offending item. */
  lemma CleanMeansNothingOffending(value: Json)
    ensures Clean(value) <==> !exists path: Path, item: Json :: LeadsTo(value, path, item) && Offending(item)
  {
    if Clean(value) {
      forall path: Path, item: Json | LeadsTo(value, path, item) ensures !Offending(item) {
        CleanBelow(value, path, item);
      }
    } else {
      var path, item := UncleanHasWitness(value);
      assert LeadsTo(value, path, item) && Offending(item);
    }
  }

  // Sizes, for termination of the explicit stack.

  ghost function Size(value: Json): nat {
    match value
    case Scalar(_) => 1
    case Str(_) => 1
    case Obj(fields) => 1 + FieldsSize(fields)
    case Arr(items) => 1 + ItemsSize(items)
  }

  ghost function FieldsSize(fields: seq<Field>): nat {
    if fields == [] then 0
    else FieldSize(fields[|fields| - 1]) + FieldsSize(fields[..|fields| - 1])
  }

  ghost function FieldSize(field: Field): nat {
    Size(field.value)
  }

  ghost function ItemsSize(items: seq<Json>): nat {
    if items == [] then 0
    else Size(items[|items| - 1]) + ItemsSize(items[..|items| - 1])
  }

  ghost function StackSize(pending: seq<(Path, Json)>): nat {
    if pending == [] then 0
    else Size(pending[|pending| - 1].1) + StackSize(pending[..|pending| - 1])
  }

  ghost predicate Reached(value: Json, pending: seq<(Path, Json)>) {
    forall i :: 0 <= i < |pending| ==> LeadsTo(value, pending[i].0, pending[i].1)
  }

  ghost predicate AllClean(pending: seq<(Path, Json)>) {
    forall i :: 0 <= i < |pending| ==> Clean(pending[i].1)
  }

  /** Pushing one child of a reached item keeps the stack reached, and adds
      exactly that child to its size and to its cleanliness. */
  lemma PushChild(value: Json, path: Path, item: Json, pending: seq<(Path, Json)>, step: PathStep, child: Json)
    requires LeadsTo(value, path, item) && LeadsTo(item, [step], child) && Reached(value, pending)
    ensures Reached(value, pending + [(path + [step], child)])
    ensures AllClean(pending + [(path + [step], child)]) <==> AllClean(pending) && Clean(child)
    ensures StackSize(pending + [(path + [step], child)]) == StackSize(pending) + Size(child)
  {
    Descend(value, path, item, step, child);
    var pushed := pending + [(path + [step], child)];
    assert pushed[..|pushed| - 1] == pending;
    assert forall k :: 0 <= k < |pending| ==> pushed[k] == pending[k];
    assert pushed[|pushed| - 1].1 == child;
  }

  lemma FieldLeads(item: Json, i: nat)
    requires item.Obj? && i < |item.fields|
    ensures LeadsTo(item, [KeyStep(item.fields[i].key)], item.fields[i].value)
  {
    var step := KeyStep(item.fields[i].key);
    assert LeadsTo(item.fields[i].value, [step][1..], item.fields[i].value);
  }

  lemma ItemLeads(item: Json, i: nat)
    requires item.Arr? && i < |item.items|
    ensures LeadsTo(item, [IndexStep(i)], item.items[i])
  {
    assert LeadsTo(item.items[i], [IndexStep(i)][1..], item.items[i]);
  }

  lemma FieldsSizeStep(fields: seq<Field>, i: nat)
    requires i < |fields|
    ensures FieldsSize(fields[..i + 1]) == FieldsSize(fields[..i]) + Size(fields[i].value)
  {
    assert fields[..i + 1][..i] == fields[..i];
  }

  lemma ItemsSizeStep(items: seq<Json>, i: nat)
    requires i < |items|
    ensures ItemsSize(items[..i + 1]) == ItemsSize(items[..i]) + Size(items[i])
  {
    assert items[..i + 1][..i] == items[..i];
  }

  ghost predicate KeysGood(fields: seq<Field>, n: nat)
    requires n <= |fields|
  {
    forall j :: 0 <= j < n ==> !BadKey(fields[j].key)
  }

  lemma CleanObject(item: Json)
    requires item.Obj? && KeysGood(item.fields, |item.fields|)
    ensures Clean(item) <==> ValuesClean(item.fields, |item.fields|)
  {
  }

  ghost predicate ValuesClean(fields: seq<Field>, n: nat)
    requires n <= |fields|
  {
    forall j :: 0 <= j < n ==> Clean(fields[j].value)
  }

  lemma PushField(value: Json, path: Path, item: Json, pending: seq<(Path, Json)>, i: nat, pushed: seq<(Path, Json)>)
    requires item.Obj? && i < |item.fields| && LeadsTo(value, path, item) && Reached(value, pending)
    requires pushed == pending + [(path + [KeyStep(item.fields[i].key)], item.fields[i].value)]
    ensures Reached(value, pushed)
    ensures AllClean(pushed) <==> AllClean(pending) && Clean(item.fields[i].value)
    ensures StackSize(pushed) + FieldsSize(item.fields[..i]) == StackSize(pending) + FieldsSize(item.fields[..i + 1])
  {
    FieldLeads(item, i);
    FieldsSizeStep(item.fields, i);
    PushChild(value, path, item, pending, KeyStep(item.fields[i].key), item.fields[i].value);
  }

  /** The first `n` fields have been pushed on top of `pending`. */
  ghost predicate Pushed(value: Json, item: Json, pending: seq<(Path, Json)>, pushed: seq<(Path, Json)>, n: nat)
    requires item.Obj? && n <= |item.fields|
  {
    && Reached(value, pushed) && KeysGood(item.fields, n)
    && (AllClean(pushed) <==> AllClean(pending) && ValuesClean(item.fields, n))
    && StackSize(pushed) == StackSize(pending) + FieldsSize(item.fields[..n])
  }

  lemma PushedStep(
      value: Json, path: Path, item: Json, pending: seq<(Path, Json)>, pushed: seq<(Path, Json)>, n: nat,
      more: seq<(Path, Json)>)
    requires item.Obj? && n < |item.fields| && LeadsTo(value, path, item) && Pushed(value, item, pending, pushed, n)
    requires !BadKey(item.fields[n].key)
    requires more == pushed + [(path + [KeyStep(item.fields[n].key)], item.fields[n].value)]
    ensures Pushed(value, item, pending, more, n + 1)
  {
    PushField(value, path, item, pushed, n, more);
  }

  method PushFields(value: Json, path: Path, item: Json, pending: seq<(Path, Json)>)
    returns (found: bool, pushed: seq<(Path, Json)>)
    requires item.Obj? && LeadsTo(value, path, item) && Reached(value, pending)
    ensures found ==> Offending(item)
    ensures !found ==> Reached(value, pushed)
    ensures !found ==> (AllClean(pushed) <==> AllClean(pending) && Clean(item))
    ensures !found ==> StackSize(pushed) == StackSize(pending) + FieldsSize(item.fields)
  {
    pushed := pending;
    for i := 0 to |item.fields|
      invariant Pushed(value, item, pending, pushed, i)
    {
      var field := item.fields[i];
      if BadKey(field.key) {
        return true, pending;
      }
      var more := pushed + [(path + [KeyStep(field.key)], field.value)];
      PushedStep(value, path, item, pending, pushed, i, more);
      pushed := more;
    }
    assert item.fields[..|item.fields|] == item.fields;
    CleanObject(item);
    found := false;
  }

  method PushItems(value: Json, path: Path, item: Json, pending: seq<(Path, Json)>)
    returns (pushed: seq<(Path, Json)>)
    requires item.Arr? && LeadsTo(value, path, item) && Reached(value, pending)
    ensures Reached(value, pushed)
    ensures AllClean(pushed) <==> AllClean(pending) && Clean(item)
    ensures StackSize(pushed) == StackSize(pending) + ItemsSize(item.items)
  {
    pushed := pending;
    for i := 0 to |item.items|
      invariant Reached(value, pushed)
      invariant AllClean(pushed) <==> AllClean(pending) && forall j :: 0 <= j < i ==> Clean(item.items[j])
      invariant StackSize(pushed) == StackSize(pending) + ItemsSize(item.items[..i])
    {
      var step := IndexStep(i);
      ItemLeads(item, i);
      PushChild(value, path, item, pushed, step, item.items[i]);
      pushed := pushed + [(path + [step], item.items[i])];
      ItemsSizeStep(item.items, i);
    }
    assert item.items[..|item.items|] == item.items;
  }

  /** The explicit-stack search: it ends on every value, answers `None` exactly
      for clean values, and otherwise names a path to an offending item. */
  method UnstorableTextLocation(value: Json) returns (location: Option<Path>)
    ensures location.None? <==> Clean(value)
    ensures location.Some? ==> exists item :: LeadsTo(value, location.value, item) && Offending(item)
  {
    var pending: seq<(Path, Json)> := [([], value)];
    assert pending[..0] == [];
    while pending != []
      invariant Reached(value, pending)
      invariant Clean(value) <==> AllClean(pending)
      decreases StackSize(pending)
    {
      var (path, item) := pending[|pending| - 1];
      var rest := pending[..|pending| - 1];
      assert LeadsTo(value, path, item);
      assert AllClean(pending) <==> AllClean(rest) && Clean(item) by {
        assert forall k :: 0 <= k < |rest| ==> pending[k] == rest[k];
      }
      match item
      case Str(text) =>
        if Unstorable(text) {
          CleanMeansNothingOffending(value);
          return Some(path);
        }
        pending := rest;
      case Obj(_) =>
        var found, pushed := PushFields(value, path, item, rest);
        if found {
          CleanMeansNothingOffending(value);
          return Some(path);
        }
        pending := pushed;
      case Arr(_) =>
        pending := PushItems(value, path, item, rest);
      case Scalar(_) =>
        pending := rest;
    }
    location := None;
  }
}
