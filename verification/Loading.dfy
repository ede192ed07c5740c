/** What a document says, and that the loader returns exactly that: told of the JSON and the
    value alone, with no order in which either is read. */
module Loading {
  import opened Basics
  import opened Sets
  import opened Documents

  // ------------------------------------------------------------------- what it says

  /** The first alternative that is not None. */
  ghost predicate FirstStated(arms: seq<Type>, i: int) {
    0 <= i < |arms| && arms[i] != TNone && forall k :: 0 <= k < i ==> arms[k] == TNone
  }

  /** The JSON says the value, of the declared type. */
  ghost predicate Says(w: Reader, j: Json, v: Value, h: Hint)
    requires HintOk(h)
    decreases h, 1
  {
    exists i :: FirstStated(h.arms, i) && SaysAs(w, j, v, h.arms[i])
  }

  /** Truth values are truth values, numbers numbers and texts texts: nothing is read as another.
      A list says its items; an object its fields, every one of them known, those absent left
      to their defaults. */
  ghost predicate SaysAs(w: Reader, j: Json, v: Value, t: Type)
    requires TypeOk(t)
    decreases t, 0
  {
    match t
    case TNone => false
    case TAny => false
    case TBool => v.VBool? && j == JBool(v.b)
    case TInt => v.VInt? && j == JInt(v.n)
    case TStr => v.VStr? && j == JStr(v.text)
    case TDay => v.VDay? && j.JStr? && w.day(j.text) == Some(v.day)
    case TInstant => v.VInstant? && j.JStr? && w.instant(j.text) == Some(v.instant)
    case TDuration => v.VDuration? && j == JInt(v.amount) && -1_439_999_998_560 <= v.amount < 1_440_000_000_000
    case TEnum(id, members) => v.VEnum? && v.id == id && j == JStr(v.member) && v.member in members
    case TColl(kind, inner) =>
      j.JList? && exists vs: seq<Value> :: |vs| == |j.items| && CollectionOf(kind, vs) == v
                    && forall i :: 0 <= i < |vs| ==> Says(w, j.items[i], vs[i], inner)
    case TRecord(id, fields) =>
      && v.VRecord? && v.id == id && j.JObject?
      && (forall key :: key in j.members ==> exists k :: 0 <= k < |fields| && fields[k].key == key)
      && (forall k :: 0 <= k < |fields| ==> FieldSays(w, j.members, fields[k], v.given))
      && (forall name :: name in v.given ==> exists k :: 0 <= k < |fields| && fields[k].name == name)
      && w.refuses(id, v.given).None?
  }

  /** A field stated is given as it says; one that is not has a default, and may be null only
      where its type admits that. */
  ghost predicate FieldSays(w: Reader, members: map<string, Json>, f: Field, given: map<string, Value>)
    requires HintOk(f.hint)
    decreases f.hint, 2
  {
    if Stated(members, f.key) then f.name in given && Says(w, members[f.key], given[f.name], f.hint)
    else f.name !in given && f.default.Some? && (f.key in members ==> TNone in f.hint.arms)
  }

  /** The key is there, with something other than null. */
  predicate Stated(members: map<string, Json>, key: string) {
    key in members && members[key] != JNull
  }

  /** Tuples and lists keep their items, sets each value once. */
  ghost function CollectionOf(kind: Kind, vs: seq<Value>): Value {
    match kind
    case Tuple => VColl(Tuple, vs)
    case List => VColl(List, vs)
    case FrozenSet => VSet(FrozenSet, set i | 0 <= i < |vs| :: vs[i])
    case Set => VSet(Set, set i | 0 <= i < |vs| :: vs[i])
  }

  // ------------------------------------------------------------------ piece by piece

  lemma {:induction false} FirstArmIs(arms: seq<Type>, i: int)
    ensures FirstStated(arms, i) ==> FirstArm(arms) == Some(arms[i])
    ensures FirstArm(arms).Some? ==> exists k :: FirstStated(arms, k)
  {
    if arms != [] {
      FirstArmIs(arms[1..], i - 1);
      if arms[0] != TNone {
        assert FirstStated(arms, 0);
      } else {
        if FirstStated(arms, i) {
          assert forall k :: 0 <= k < i - 1 ==> arms[1..][k] == arms[k + 1];
          assert FirstStated(arms[1..], i - 1);
        }
        if k :| FirstStated(arms[1..], k) {
          assert forall x :: 0 < x < k + 1 ==> arms[x] == arms[1..][x - 1];
          assert FirstStated(arms, k + 1);
        }
      }
    }
  }

  lemma CollectedIs(kind: Kind, vs: seq<Value>)
    ensures Collected(kind, vs) == CollectionOf(kind, vs)
  {
    assert Of(vs) == set i | 0 <= i < |vs| :: vs[i];
  }

  lemma {:induction false} ItemsAre(w: Reader, items: seq<Json>, inner: Hint, at: seq<Part>, n: nat, vs: seq<Value>)
    requires HintOk(inner) && n <= |items|
    ensures ItemsOf(w, items, inner, at, n) == Ok(vs) <==>
              |vs| == n && forall i :: 0 <= i < n ==> ValueOf(w, items[i], inner, at + [Item(i)]) == Ok(vs[i])
    decreases n
  {
    if n > 0 {
      if |vs| == n {
        ItemsAre(w, items, inner, at, n - 1, vs[..n - 1]);
        assert vs == vs[..n - 1] + [vs[n - 1]];
      }
      var before := ItemsOf(w, items, inner, at, n - 1);
      if before.Ok? {
        ItemsAre(w, items, inner, at, n - 1, before.value);
      }
    }
  }

  /** What one field comes to, as read off the document. */
  lemma FieldIs(w: Reader, f: Field, members: map<string, Json>, at: seq<Part>)
    requires HintOk(f.hint)
    ensures var here := at + [Key(f.key)];
            FieldValue(w, f, members, at)
            == if Stated(members, f.key) then
                 var v := ValueOf(w, members[f.key], f.hint, here); if v.Ok? then Given(v.value) else Refuses(v.refusal)
               else if f.default.None? then Refuses(Refusal(FieldBlank, here))
               else if f.key in members && TNone !in f.hint.arms then Refuses(Refusal(WrongType, here))
               else Default
  {
  }

  /** The first `n` fields read: each given or left to its default; or the first that refuses. */
  ghost predicate FieldsRead(w: Reader, t: Type, members: map<string, Json>, at: seq<Part>, n: nat, read: Loaded<map<string, Value>>)
    requires t.TRecord? && TypeOk(t) && n <= |t.fields|
  {
    if read.No? then exists k :: FirstRefusing(w, t, members, at, n, k, read.refusal)
    else
      && (forall k :: 0 <= k < n ==> !FieldValue(w, t.fields[k], members, at).Refuses?
                                     && GivenAs(FieldValue(w, t.fields[k], members, at), t.fields[k].name, read.value))
      && forall name :: name in read.value ==> exists k :: 0 <= k < n && t.fields[k].name == name
  }

  lemma {:induction false} FieldsAre(w: Reader, t: Type, members: map<string, Json>, at: seq<Part>, n: nat)
    requires t.TRecord? && TypeOk(t) && n <= |t.fields|
    ensures FieldsRead(w, t, members, at, n, FieldsOf(w, t, members, at, n))
    decreases n
  {
    if n > 0 {
      FieldsAre(w, t, members, at, n - 1);
      OneMoreRead(w, t, members, at, n, FieldsOf(w, t, members, at, n - 1));
    }
  }

  lemma OneMoreRead(w: Reader, t: Type, members: map<string, Json>, at: seq<Part>, n: nat, before: Loaded<map<string, Value>>)
    requires t.TRecord? && TypeOk(t) && 0 < n <= |t.fields| && FieldsRead(w, t, members, at, n - 1, before)
    ensures FieldsRead(w, t, members, at, n,
                       if before.No? then before
                       else match FieldValue(w, t.fields[n - 1], members, at)
                            case Given(v) => Ok(before.value[t.fields[n - 1].name := v])
                            case Default => before
                            case Refuses(refusal) => No(refusal))
  {
    LastFieldIsNew(t, n);
    if before.No? {
      var k :| FirstRefusing(w, t, members, at, n - 1, k, before.refusal);
      assert FirstRefusing(w, t, members, at, n, k, before.refusal);
    } else if FieldValue(w, t.fields[n - 1], members, at).Refuses? {
      assert FirstRefusing(w, t, members, at, n, n - 1, FieldValue(w, t.fields[n - 1], members, at).refusal);
    }
  }

  ghost predicate GivenAs(read: OfField, name: string, given: map<string, Value>) {
    if read.Given? then name in given && given[name] == read.value else name !in given
  }

  ghost predicate FirstRefusing(w: Reader, t: Type, members: map<string, Json>, at: seq<Part>, n: nat, k: int, refusal: Refusal)
    requires t.TRecord? && TypeOk(t) && n <= |t.fields|
  {
    && 0 <= k < n && FieldValue(w, t.fields[k], members, at) == Refuses(refusal)
    && forall i :: 0 <= i < k ==> !FieldValue(w, t.fields[i], members, at).Refuses?
  }

  lemma KeysAre(members: map<string, Json>, fields: seq<Field>)
    ensures members.Keys <= KeysOf(fields) <==> forall key :: key in members ==> exists k :: 0 <= k < |fields| && fields[k].key == key
  {
    forall key ensures key in KeysOf(fields) <==> exists k :: 0 <= k < |fields| && fields[k].key == key {
      if k :| 0 <= k < |fields| && fields[k].key == key {
        assert fields[k] in fields;
      }
      if key in KeysOf(fields) {
        var f :| f in fields && f.key == key;
      }
    }
    if forall key :: key in members ==> exists k :: 0 <= k < |fields| && fields[k].key == key {
      assert forall key :: key in members.Keys ==> key in KeysOf(fields);
    } else {
      var key :| key in members && !exists k :: 0 <= k < |fields| && fields[k].key == key;
      assert key in members.Keys && key !in KeysOf(fields);
    }
  }

  // ---------------------------------------------------------------- they agree

  /** THE LOADER RETURNS EXACTLY WHAT THE DOCUMENT SAYS: a value when the JSON says it, that
      value and no other, whatever types are inside what; and a refusal when it says none. */
  lemma {:induction false} LoadsWhatItSays(w: Reader, j: Json, h: Hint, at: seq<Part>, v: Value)
    requires HintOk(h)
    ensures ValueOf(w, j, h, at) == Ok(v) <==> Says(w, j, v, h)
    decreases h, 1
  {
    ArmDecreases(h);
    FirstArmIs(h.arms, 0);
    var k :| FirstStated(h.arms, k);
    forall i | FirstStated(h.arms, i) ensures h.arms[i] == FirstArm(h.arms).value {
      FirstArmIs(h.arms, i);
    }
    LoadsAsItSays(w, j, FirstArm(h.arms).value, at, v);
  }

  lemma {:induction false} LoadsAsItSays(w: Reader, j: Json, t: Type, at: seq<Part>, v: Value)
    requires TypeOk(t)
    ensures ValueAs(w, j, t, at) == Ok(v) <==> SaysAs(w, j, v, t)
    decreases t, 0
  {
    match t
    case TColl(kind, inner) => CollectionLoads(w, j, kind, inner, t, at, v);
    case TRecord(_, _) => RecordLoads(w, j, t, at, v);
    case _ =>
  }

  lemma {:induction false} CollectionLoads(w: Reader, j: Json, kind: Kind, inner: Hint, t: Type, at: seq<Part>, v: Value)
    requires t == TColl(kind, inner) && TypeOk(t)
    ensures ValueAs(w, j, t, at) == Ok(v) <==> SaysAs(w, j, v, t)
    decreases inner, 2
  {
    if j.JList? {
      forall vs: seq<Value> | |vs| == |j.items|
        ensures ItemsOf(w, j.items, inner, at, |j.items|) == Ok(vs) <==> forall i :: 0 <= i < |vs| ==> Says(w, j.items[i], vs[i], inner)
      {
        ItemsAre(w, j.items, inner, at, |j.items|, vs);
        forall i | 0 <= i < |vs| ensures ValueOf(w, j.items[i], inner, at + [Item(i)]) == Ok(vs[i]) <==> Says(w, j.items[i], vs[i], inner) {
          LoadsWhatItSays(w, j.items[i], inner, at + [Item(i)], vs[i]);
        }
        CollectedIs(kind, vs);
      }
      var items := ItemsOf(w, j.items, inner, at, |j.items|);
      if items.Ok? {
        ItemsAre(w, j.items, inner, at, |j.items|, items.value);
        CollectedIs(kind, items.value);
      }
    }
  }

  lemma {:induction false} RecordLoads(w: Reader, j: Json, t: Type, at: seq<Part>, v: Value)
    requires t.TRecord? && TypeOk(t)
    ensures LoadRecord(w, j, t, at) == Ok(v) <==> SaysAs(w, j, v, t)
    decreases t, 0, 0
  {
    if j.JObject? {
      KeysAre(j.members, t.fields);
      if v.VRecord? {
        forall k | 0 <= k < |t.fields|
          ensures FieldSays(w, j.members, t.fields[k], v.given) <==>
                    !FieldValue(w, t.fields[k], j.members, at).Refuses?
                    && GivenAs(FieldValue(w, t.fields[k], j.members, at), t.fields[k].name, v.given)
        {
          FieldDecreases(t, k);
          FieldLoads(w, j.members, t.fields[k], at, v.given);
        }
        FieldsAgree(w, t, j.members, at, v.given);
      }
    }
  }

  lemma {:induction false} FieldLoads(w: Reader, members: map<string, Json>, f: Field, at: seq<Part>, given: map<string, Value>)
    requires HintOk(f.hint)
    ensures FieldSays(w, members, f, given) <==>
              !FieldValue(w, f, members, at).Refuses? && GivenAs(FieldValue(w, f, members, at), f.name, given)
    decreases f.hint, 2
  {
    FieldIs(w, f, members, at);
    if Stated(members, f.key) && f.name in given {
      LoadsWhatItSays(w, members[f.key], f.hint, at + [Key(f.key)], given[f.name]);
    }
  }

  /** Fields read one by one come to one map, and no other. */
  lemma FieldsAgree(w: Reader, t: Type, members: map<string, Json>, at: seq<Part>, given: map<string, Value>)
    requires t.TRecord? && TypeOk(t)
    ensures FieldsOf(w, t, members, at, |t.fields|) == Ok(given) <==>
              && (forall k :: 0 <= k < |t.fields| ==>
                    !FieldValue(w, t.fields[k], members, at).Refuses?
                    && GivenAs(FieldValue(w, t.fields[k], members, at), t.fields[k].name, given))
              && forall name :: name in given ==> exists k :: 0 <= k < |t.fields| && t.fields[k].name == name
  {
    FieldsAre(w, t, members, at, |t.fields|);
    var read := FieldsOf(w, t, members, at, |t.fields|);
    if (forall k :: 0 <= k < |t.fields| ==>
          !FieldValue(w, t.fields[k], members, at).Refuses?
          && GivenAs(FieldValue(w, t.fields[k], members, at), t.fields[k].name, given))
       && forall name :: name in given ==> exists k :: 0 <= k < |t.fields| && t.fields[k].name == name
    {
      assert read.Ok?;
      SameGiven(w, t, members, at, read.value, given);
    }
  }

  lemma SameGiven(w: Reader, t: Type, members: map<string, Json>, at: seq<Part>, a: map<string, Value>, b: map<string, Value>)
    requires t.TRecord? && TypeOk(t)
    requires forall k :: 0 <= k < |t.fields| ==>
               GivenAs(FieldValue(w, t.fields[k], members, at), t.fields[k].name, a)
               && GivenAs(FieldValue(w, t.fields[k], members, at), t.fields[k].name, b)
    requires forall name :: name in a ==> exists k :: 0 <= k < |t.fields| && t.fields[k].name == name
    requires forall name :: name in b ==> exists k :: 0 <= k < |t.fields| && t.fields[k].name == name
    ensures a == b
  {
    forall name ensures name in a <==> name in b ensures name in a ==> a[name] == b[name] {
      SameAt(w, t, members, at, a, b, name);
      SameAt(w, t, members, at, b, a, name);
    }
  }

  lemma SameAt(w: Reader, t: Type, members: map<string, Json>, at: seq<Part>, a: map<string, Value>, b: map<string, Value>,
               name: string)
    requires t.TRecord? && TypeOk(t)
    requires forall k :: 0 <= k < |t.fields| ==>
               GivenAs(FieldValue(w, t.fields[k], members, at), t.fields[k].name, a)
               && GivenAs(FieldValue(w, t.fields[k], members, at), t.fields[k].name, b)
    requires forall name :: name in a ==> exists k :: 0 <= k < |t.fields| && t.fields[k].name == name
    ensures name in a ==> name in b && a[name] == b[name]
  {
  }

  // ------------------------------------------------------------------ and refuses

  /** A REFUSED RECORD, in order: not an object; a key nobody knows; the first field that
      refuses; the validator of its own. */
  lemma RefusedInOrder(w: Reader, j: Json, t: Type, at: seq<Part>)
    requires t.TRecord? && TypeOk(t) && LoadRecord(w, j, t, at).No?
    ensures var refusal := LoadRecord(w, j, t, at).refusal;
            if !j.JObject? then refusal == Refusal(FieldBlank, at)
            else if exists key :: key in j.members && forall k :: 0 <= k < |t.fields| ==> t.fields[k].key != key then
              refusal == Refusal(UnknownField, at)
            else
              || (exists k :: FirstRefusing(w, t, j.members, at, |t.fields|, k, refusal))
              || (FieldsOf(w, t, j.members, at, |t.fields|).Ok?
                  && w.refuses(t.id, FieldsOf(w, t, j.members, at, |t.fields|).value) == Some(refusal))
  {
    if j.JObject? {
      KeysAre(j.members, t.fields);
      FieldsAre(w, t, j.members, at, |t.fields|);
    }
  }

  // ---------------------------------------------------------------- and degrades

  /** None of the carrier fields among the first `n` refuses. */
  ghost predicate NoneRefuses(w: Reader, t: Type, names: set<string>, members: map<string, Json>, at: seq<Part>, n: nat)
    requires t.TRecord? && TypeOk(t) && n <= |t.fields|
  {
    forall k :: 0 <= k < n && t.fields[k].name in names ==> !FieldValue(w, t.fields[k], members, at).Refuses?
  }

  /** Each of them is given, or left out, and nothing else is given. */
  ghost predicate GivesCarriers(w: Reader, t: Type, names: set<string>, members: map<string, Json>, at: seq<Part>, n: nat,
                                given: map<string, Value>)
    requires t.TRecord? && TypeOk(t) && n <= |t.fields|
  {
    && (forall k :: 0 <= k < n && t.fields[k].name in names ==>
          GivenAs(FieldValue(w, t.fields[k], members, at), t.fields[k].name, given))
    && forall name :: name in given ==> exists k :: 0 <= k < n && t.fields[k].name == name && name in names
  }

  /** The carrier fields among the first `n`, read: every one, or one refuses. */
  ghost predicate CarrierRead(w: Reader, t: Type, names: set<string>, members: map<string, Json>, at: seq<Part>, n: nat,
                              read: Loaded<map<string, Value>>)
    requires t.TRecord? && TypeOk(t) && n <= |t.fields|
  {
    && (read.Ok? <==> NoneRefuses(w, t, names, members, at, n))
    && (read.Ok? ==> GivesCarriers(w, t, names, members, at, n, read.value))
  }

  lemma {:induction false} CarrierFieldsAre(w: Reader, t: Type, names: set<string>, members: map<string, Json>, at: seq<Part>, n: nat)
    requires t.TRecord? && TypeOk(t) && n <= |t.fields|
    ensures CarrierRead(w, t, names, members, at, n, CarrierFields(w, t, names, members, at, n))
    decreases n
  {
    if n > 0 {
      CarrierFieldsAre(w, t, names, members, at, n - 1);
      OneMoreCarrier(w, t, names, members, at, n, CarrierFields(w, t, names, members, at, n - 1));
    }
  }

  lemma OneMoreCarrier(w: Reader, t: Type, names: set<string>, members: map<string, Json>, at: seq<Part>, n: nat,
                       before: Loaded<map<string, Value>>)
    requires t.TRecord? && TypeOk(t) && 0 < n <= |t.fields| && CarrierRead(w, t, names, members, at, n - 1, before)
    ensures CarrierRead(w, t, names, members, at, n,
                        if before.No? || t.fields[n - 1].name !in names then before
                        else match FieldValue(w, t.fields[n - 1], members, at)
                             case Given(v) => Ok(before.value[t.fields[n - 1].name := v])
                             case Default => before
                             case Refuses(refusal) => No(refusal))
  {
    var f := t.fields[n - 1];
    OneMoreRefuses(w, t, names, members, at, n);
    if before.Ok? && !(f.name in names && FieldValue(w, f, members, at).Refuses?) {
      OneMoreGiven(w, t, names, members, at, n, before.value);
    }
  }

  lemma OneMoreRefuses(w: Reader, t: Type, names: set<string>, members: map<string, Json>, at: seq<Part>, n: nat)
    requires t.TRecord? && TypeOk(t) && 0 < n <= |t.fields|
    ensures NoneRefuses(w, t, names, members, at, n) <==>
              && NoneRefuses(w, t, names, members, at, n - 1)
              && (t.fields[n - 1].name in names ==> !FieldValue(w, t.fields[n - 1], members, at).Refuses?)
  {
  }

  lemma OneMoreGiven(w: Reader, t: Type, names: set<string>, members: map<string, Json>, at: seq<Part>, n: nat,
                     given: map<string, Value>)
    requires t.TRecord? && TypeOk(t) && 0 < n <= |t.fields| && GivesCarriers(w, t, names, members, at, n - 1, given)
    requires t.fields[n - 1].name in names ==> !FieldValue(w, t.fields[n - 1], members, at).Refuses?
    ensures GivesCarriers(w, t, names, members, at, n,
                          if t.fields[n - 1].name in names && FieldValue(w, t.fields[n - 1], members, at).Given?
                          then given[t.fields[n - 1].name := FieldValue(w, t.fields[n - 1], members, at).value] else given)
  {
    LastFieldIsNew(t, n);
  }

  lemma LastFieldIsNew(t: Type, n: nat)
    requires t.TRecord? && TypeOk(t) && 0 < n <= |t.fields|
    ensures forall k :: 0 <= k < n - 1 ==> t.fields[k].name != t.fields[n - 1].name
  {
    assert FieldsApart(t.fields);
  }

  /** WHAT AN EXIT'S DOCUMENT BECOMES: the value where it loads; a carrier exactly where it does
      not, carrier fields are named, every one of them reads, and the record with nothing but
      them passes its own validator; the bare refusal in every other case. */
  lemma DegradesTo(w: Reader, j: Json, t: Type, names: set<string>, at: seq<Part>)
    requires t.TRecord? && TypeOk(t)
    ensures var loaded, out := LoadRecord(w, j, t, at), LoadOrDegrade(w, j, t, names, at);
            && (loaded.Ok? ==> out == Degraded.Value(loaded.value))
            && (loaded.No? && !(names != {} && j.JObject? && CarrierReads(w, j, t, names, at)) ==> out == Marker(loaded.refusal))
            && (loaded.No? && names != {} && j.JObject? && CarrierReads(w, j, t, names, at) ==>
                  exists given :: CarriesAs(w, j, t, names, at, loaded.refusal, given)
                    && out == if w.refuses(t.id, given).None? then Carrier(VRecord(t.id, given)) else Marker(loaded.refusal))
  {
    if j.JObject? {
      CarrierFieldsAre(w, t, names, j.members, at, |t.fields|);
      if LoadRecord(w, j, t, at).No? && CarrierReads(w, j, t, names, at) {
        CarrierIs(w, j, t, names, at, LoadRecord(w, j, t, at).refusal);
      }
    }
  }

  ghost predicate CarrierReads(w: Reader, j: Json, t: Type, names: set<string>, at: seq<Part>)
    requires t.TRecord? && TypeOk(t) && j.JObject?
  {
    forall k :: 0 <= k < |t.fields| && t.fields[k].name in names ==> !FieldValue(w, t.fields[k], j.members, at).Refuses?
  }

  /** The refusal under its own name; each carrier field as it reads; None for every other
      field that is required; and nothing else. */
  ghost predicate CarriesAs(w: Reader, j: Json, t: Type, names: set<string>, at: seq<Part>, refusal: Refusal, given: map<string, Value>)
    requires t.TRecord? && TypeOk(t) && j.JObject?
  {
    && "unreadable" in given && given["unreadable"] == VUnreadable(refusal)
    && forall k :: 0 <= k < |t.fields| && t.fields[k].name != "unreadable" ==>
         var f := t.fields[k];
         if f.name in names && FieldValue(w, f, j.members, at).Given? then GivenAs(FieldValue(w, f, j.members, at), f.name, given)
         else if f.default.None? then f.name in given && given[f.name] == VNone else f.name !in given
  }

  lemma CarrierIs(w: Reader, j: Json, t: Type, names: set<string>, at: seq<Part>, refusal: Refusal)
    requires t.TRecord? && TypeOk(t) && j.JObject? && CarrierReads(w, j, t, names, at)
    ensures CarrierFields(w, t, names, j.members, at, |t.fields|).Ok?
    ensures CarriesAs(w, j, t, names, at, refusal,
                      CarrierOf(t, CarrierFields(w, t, names, j.members, at, |t.fields|).value, refusal))
  {
    CarrierFieldsAre(w, t, names, j.members, at, |t.fields|);
    var read := CarrierFields(w, t, names, j.members, at, |t.fields|).value;
    var given := CarrierOf(t, read, refusal);
    forall k | 0 <= k < |t.fields| && t.fields[k].name != "unreadable"
      ensures var f := t.fields[k];
              if f.name in names && FieldValue(w, f, j.members, at).Given? then GivenAs(FieldValue(w, f, j.members, at), f.name, given)
              else if f.default.None? then f.name in given && given[f.name] == VNone else f.name !in given
    {
      OneCarried(w, j, t, names, at, refusal, read, k);
    }
  }

  lemma OneCarried(w: Reader, j: Json, t: Type, names: set<string>, at: seq<Part>, refusal: Refusal, read: map<string, Value>, k: nat)
    requires t.TRecord? && TypeOk(t) && j.JObject? && k < |t.fields| && t.fields[k].name != "unreadable"
    requires t.fields[k].name in names ==> GivenAs(FieldValue(w, t.fields[k], j.members, at), t.fields[k].name, read)
    requires t.fields[k].name !in names ==> t.fields[k].name !in read
    ensures var f, given := t.fields[k], CarrierOf(t, read, refusal);
            if f.name in names && FieldValue(w, f, j.members, at).Given? then GivenAs(FieldValue(w, f, j.members, at), f.name, given)
            else if f.default.None? then f.name in given && given[f.name] == VNone else f.name !in given
  {
    var f := t.fields[k];
    assert f in t.fields;
    assert forall g :: g in t.fields && g.name == f.name ==> g == f by {
      forall g | g in t.fields && g.name == f.name ensures g == f {
        var i :| 0 <= i < |t.fields| && t.fields[i] == g;
        assert FieldsApart(t.fields);
      }
    }
  }
}
