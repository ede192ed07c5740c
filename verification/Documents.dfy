/** Documents: JSON against the types its dataclasses declare. What is loaded has the type
    declared; what cannot be loaded at an exit still becomes something to answer on. */
module Documents {
  import opened Basics
  import opened Sets

  // ------------------------------------------------------------------ the universe

  datatype Kind = FrozenSet | Set | Tuple | List

  datatype Type =
    | TNone | TAny | TBool | TInt | TStr | TDay | TInstant | TDuration
    | TEnum(id: nat, members: set<string>)
    | TColl(kind: Kind, inner: Hint)
    | TRecord(id: nat, fields: seq<Field>)

  /** A declared type: the alternatives of a union, or one alone. */
  datatype Hint = Hint(arms: seq<Type>)

  /** `default`: the dataclass's own, where it has one; a field without is required. */
  datatype Field = Field(name: string, key: string, hint: Hint, default: Option<Value>)

  datatype Json =
    | JNull | JBool(b: bool) | JInt(n: int) | JFloat | JStr(text: string) | JList(items: seq<Json>)
    | JObject(members: map<string, Json>)

  /** Booleans are not whole numbers, nor instants days: they are different values here. */
  datatype Value =
    | VNone | VBool(b: bool) | VInt(n: int) | VStr(text: string) | VDay(day: Day) | VInstant(instant: Instant)
    | VDuration(amount: int)
    | VEnum(id: nat, member: string)
    | VColl(kind: Kind, items: seq<Value>) | VSet(kind: Kind, elements: set<Value>)
    | VRecord(id: nat, given: map<string, Value>)
    | VUnreadable(refusal: Refusal)

  datatype Code = FieldBlank | WrongType | UnknownField | OwnValidator(code: nat)
  datatype Part = Key(key: string) | Item(index: nat)
  datatype Refusal = Refusal(code: Code, at: seq<Part>)
  datatype Loaded<T> = Ok(value: T) | No(refusal: Refusal)

  /** What texts read as, and what a dataclass's own validator says of its fields. */
  datatype Reader = Reader(day: string -> Option<Day>, instant: string -> Option<Instant>,
                           refuses: (nat, map<string, Value>) -> Option<Refusal>)

  const MOST_DAYS := 999_999_999

  predicate IsSet(kind: Kind) {
    kind == FrozenSet || kind == Set
  }

  /** The collection built of these items: a set keeps one of those that are equal. */
  function Collected(kind: Kind, items: seq<Value>): Value {
    if IsSet(kind) then VSet(kind, Of(items)) else VColl(kind, items)
  }

  predicate IsColl(v: Value, kind: Kind) {
    if IsSet(kind) then v.VSet? && v.kind == kind else v.VColl? && v.kind == kind
  }

  function Elements(v: Value): set<Value>
    requires v.VColl? || v.VSet?
  {
    if v.VSet? then v.elements else Of(v.items)
  }

  // ------------------------------------------------------------------- conforms

  /** The value has the declared type, element types included. */
  predicate Conforms(v: Value, h: Hint)
    decreases h, 1
  {
    exists i :: 0 <= i < |h.arms| && ConformsTo(v, h.arms[i])
  }

  predicate ConformsTo(v: Value, t: Type)
    decreases t, 0
  {
    match t
    case TNone => v == VNone
    case TAny => true
    case TBool => v.VBool?
    case TInt => v.VInt?
    case TStr => v.VStr?
    case TDay => v.VDay?
    case TInstant => v.VInstant?
    case TDuration => v.VDuration?
    case TEnum(id, members) => v.VEnum? && v.id == id && v.member in members
    case TColl(kind, inner) => IsColl(v, kind) && forall x :: x in Elements(v) ==> Conforms(x, inner)
    case TRecord(id, _) => v.VRecord? && v.id == id
  }

  /** ... and, all the way down, so has every field of every record in it. */
  ghost predicate DeepTo(v: Value, t: Type)
    decreases t, 0
  {
    ConformsTo(v, t)
    && match t
       case TColl(_, inner) => forall x :: x in Elements(v) ==> Deep(x, inner)
       case TRecord(_, fields) =>
         && (forall k :: 0 <= k < |fields| && fields[k].name in v.given ==> Deep(v.given[fields[k].name], fields[k].hint))
         && (forall k :: 0 <= k < |fields| && fields[k].default.None? ==> fields[k].name in v.given)
         && (forall name :: name in v.given ==> exists k :: 0 <= k < |fields| && fields[k].name == name)
       case _ => true
  }

  ghost predicate Deep(v: Value, h: Hint)
    decreases h, 1
  {
    exists i :: 0 <= i < |h.arms| && DeepTo(v, h.arms[i])
  }

  /** A dataclass's fields have different names and different document keys. */
  ghost predicate FieldsApart(fields: seq<Field>) {
    forall i, j :: 0 <= i < j < |fields| ==> fields[i].name != fields[j].name && fields[i].key != fields[j].key
  }

  /** The declarations the loader is given: an alternative to None in every hint. */
  ghost predicate HintOk(h: Hint)
    decreases h, 1
  {
    FirstArm(h.arms).Some? && forall i :: 0 <= i < |h.arms| ==> TypeOk(h.arms[i])
  }

  ghost predicate TypeOk(t: Type)
    decreases t, 0
  {
    match t
    case TColl(_, inner) => HintOk(inner)
    case TRecord(_, fields) => FieldsApart(fields) && forall k :: 0 <= k < |fields| ==> HintOk(fields[k].hint)
    case _ => true
  }

  // -------------------------------------------------------------------- the loader

  function FirstArm(arms: seq<Type>): (arm: Option<Type>)
    ensures arm.Some? ==> arm.value in arms && arm.value != TNone
  {
    if arms == [] then None else if arms[0] != TNone then Some(arms[0]) else FirstArm(arms[1..])
  }

  predicate AdmitsNone(h: Hint) {
    TNone in h.arms
  }

  function WrongTypeAt<T>(at: seq<Part>): Loaded<T> {
    No(Refusal(WrongType, at))
  }

  /** A JSON value, present, as the first alternative of its hint that is not None. */
  function ValueOf(w: Reader, j: Json, h: Hint, at: seq<Part>): Loaded<Value>
    requires HintOk(h)
    decreases h, 2
  {
    ArmDecreases(h);
    ValueAs(w, j, FirstArm(h.arms).value, at)
  }

  lemma ArmDecreases(h: Hint)
    requires FirstArm(h.arms).Some?
    ensures FirstArm(h.arms).value < h
    ensures HintOk(h) ==> TypeOk(FirstArm(h.arms).value)
  {
    var i :| 0 <= i < |h.arms| && h.arms[i] == FirstArm(h.arms).value;
  }

  function ValueAs(w: Reader, j: Json, t: Type, at: seq<Part>): Loaded<Value>
    requires TypeOk(t)
    decreases t, 1
  {
    match t
    case TColl(kind, inner) =>
      if !j.JList? then WrongTypeAt(at)
      else
        var items := ItemsOf(w, j.items, inner, at, |j.items|);
        if items.No? then No(items.refusal) else Ok(Collected(kind, items.value))
    case TDay =>
      if !j.JStr? then WrongTypeAt(at)
      else if w.day(j.text).None? then No(Refusal(FieldBlank, at))
      else Ok(VDay(w.day(j.text).value))
    case TInstant =>
      if !j.JStr? then WrongTypeAt(at)
      else if w.instant(j.text).None? then No(Refusal(FieldBlank, at))
      else Ok(VInstant(w.instant(j.text).value))
    case TDuration =>
      if !j.JInt? then WrongTypeAt(at)
      else if !(-MOST_DAYS * 1440 <= j.n < (MOST_DAYS + 1) * 1440) then WrongTypeAt(at)
      else Ok(VDuration(j.n))
    case TEnum(id, members) =>
      if !j.JStr? then WrongTypeAt(at)
      else if j.text !in members then No(Refusal(FieldBlank, at))
      else Ok(VEnum(id, j.text))
    case TRecord(_, _) => LoadRecord(w, j, t, at)
    case TBool => if j.JBool? then Ok(VBool(j.b)) else WrongTypeAt(at)
    case TInt => if j.JInt? then Ok(VInt(j.n)) else WrongTypeAt(at)
    case TStr => if j.JStr? then Ok(VStr(j.text)) else WrongTypeAt(at)
    case TAny => WrongTypeAt(at)
    case TNone => WrongTypeAt(at)
  }

  /** The first `n` items, each in its place; the first that refuses is the refusal. */
  function ItemsOf(w: Reader, items: seq<Json>, inner: Hint, at: seq<Part>, n: nat): Loaded<seq<Value>>
    requires HintOk(inner) && n <= |items|
    decreases inner, 3, n
  {
    if n == 0 then Ok([])
    else
      var before := ItemsOf(w, items, inner, at, n - 1);
      if before.No? then before
      else
        var next := ValueOf(w, items[n - 1], inner, at + [Item(n - 1)]);
        if next.No? then No(next.refusal) else Ok(before.value + [next.value])
  }

  function KeysOf(fields: seq<Field>): set<string> {
    set f | f in fields :: f.key
  }

  datatype OfField = Given(value: Value) | Default | Refuses(refusal: Refusal)

  /** One field's value, or its default, or a refusal naming it. */
  function FieldValue(w: Reader, f: Field, members: map<string, Json>, at: seq<Part>): OfField
    requires HintOk(f.hint)
    decreases f.hint, 4
  {
    var here := at + [Key(f.key)];
    if f.key !in members || members[f.key] == JNull then
      if f.default.None? then Refuses(Refusal(FieldBlank, here))
      else if f.key in members && !AdmitsNone(f.hint) then Refuses(Refusal(WrongType, here))
      else Default
    else
      var v := ValueOf(w, members[f.key], f.hint, here);
      if v.Ok? then Given(v.value) else Refuses(v.refusal)
  }

  /** The first `n` fields of the dataclass, in the order it declares them. */
  function FieldsOf(w: Reader, t: Type, members: map<string, Json>, at: seq<Part>, n: nat): Loaded<map<string, Value>>
    requires t.TRecord? && TypeOk(t) && n <= |t.fields|
    decreases t, 0, n
  {
    if n == 0 then Ok(map[])
    else
      var before := FieldsOf(w, t, members, at, n - 1);
      if before.No? then before
      else
        FieldDecreases(t, n - 1);
        match FieldValue(w, t.fields[n - 1], members, at)
        case Given(v) => Ok(before.value[t.fields[n - 1].name := v])
        case Default => before
        case Refuses(refusal) => No(refusal)
  }

  lemma FieldDecreases(t: Type, k: nat)
    requires t.TRecord? && k < |t.fields|
    ensures t.fields[k].hint < t
  {
    assert t.fields[k] < t;
  }

  /** A document as an instance: every key known, every value of its declared type, then
      the dataclass's own validator. */
  function LoadRecord(w: Reader, j: Json, t: Type, at: seq<Part>): Loaded<Value>
    requires t.TRecord? && TypeOk(t)
    decreases t, 0, |t.fields| + 1
  {
    if !j.JObject? then No(Refusal(FieldBlank, at))
    else if !(j.members.Keys <= KeysOf(t.fields)) then No(Refusal(UnknownField, at))
    else
      var given := FieldsOf(w, t, j.members, at, |t.fields|);
      if given.No? then No(given.refusal)
      else
        var refused := w.refuses(t.id, given.value);
        if refused.Some? then No(refused.value) else Ok(VRecord(t.id, given.value))
  }

  // --------------------------------------------------------------------- soundness

  /** What the loader returns has the declared type, and so has everything inside it. */
  lemma {:induction false} LoadedIsDeep(w: Reader, j: Json, h: Hint, at: seq<Part>)
    requires HintOk(h) && ValueOf(w, j, h, at).Ok?
    ensures Conforms(ValueOf(w, j, h, at).value, h) && Deep(ValueOf(w, j, h, at).value, h)
    decreases h, 2
  {
    ArmDecreases(h);
    var arm := FirstArm(h.arms).value;
    LoadedAsIsDeep(w, j, arm, at);
    var i :| 0 <= i < |h.arms| && h.arms[i] == arm;
    assert ConformsTo(ValueOf(w, j, h, at).value, h.arms[i]);
  }

  lemma {:induction false} LoadedAsIsDeep(w: Reader, j: Json, t: Type, at: seq<Part>)
    requires TypeOk(t) && ValueAs(w, j, t, at).Ok?
    ensures DeepTo(ValueAs(w, j, t, at).value, t)
    decreases t, 1
  {
    match t
    case TColl(_, inner) => ItemsAreDeep(w, j.items, inner, at, |j.items|);
    case TRecord(_, fields) => FieldsAreDeep(w, t, j.members, at, |fields|);
    case _ =>
  }

  lemma {:induction false} ItemsAreDeep(w: Reader, items: seq<Json>, inner: Hint, at: seq<Part>, n: nat)
    requires HintOk(inner) && n <= |items| && ItemsOf(w, items, inner, at, n).Ok?
    ensures |ItemsOf(w, items, inner, at, n).value| == n
    ensures forall i :: 0 <= i < n ==>
              Conforms(ItemsOf(w, items, inner, at, n).value[i], inner) && Deep(ItemsOf(w, items, inner, at, n).value[i], inner)
    decreases inner, 3, n
  {
    if n > 0 {
      ItemsAreDeep(w, items, inner, at, n - 1);
      LoadedIsDeep(w, items[n - 1], inner, at + [Item(n - 1)]);
    }
  }

  /** Of the first `n` fields: those given have their types, those required are given. */
  ghost predicate FieldsDeep(fields: seq<Field>, given: map<string, Value>, n: nat)
    requires n <= |fields|
  {
    && (forall k :: 0 <= k < n && fields[k].name in given ==> Deep(given[fields[k].name], fields[k].hint))
    && (forall k :: 0 <= k < n && fields[k].default.None? ==> fields[k].name in given)
    && (forall name :: name in given ==> exists k :: 0 <= k < n && fields[k].name == name)
  }

  lemma OneMoreGiven(fields: seq<Field>, given: map<string, Value>, n: nat, v: Value)
    requires n < |fields| && FieldsApart(fields) && FieldsDeep(fields, given, n) && Deep(v, fields[n].hint)
    ensures FieldsDeep(fields, given[fields[n].name := v], n + 1)
  {
    assert forall k :: 0 <= k < n ==> fields[k].name != fields[n].name;
  }

  lemma OneMoreDefault(fields: seq<Field>, given: map<string, Value>, n: nat)
    requires n < |fields| && FieldsApart(fields) && FieldsDeep(fields, given, n) && fields[n].default.Some?
    ensures FieldsDeep(fields, given, n + 1)
  {
    assert forall k :: 0 <= k < n ==> fields[k].name != fields[n].name;
    assert fields[n].name !in given;
  }

  lemma {:induction false} FieldsAreDeep(w: Reader, t: Type, members: map<string, Json>, at: seq<Part>, n: nat)
    requires t.TRecord? && TypeOk(t) && n <= |t.fields| && FieldsOf(w, t, members, at, n).Ok?
    ensures FieldsDeep(t.fields, FieldsOf(w, t, members, at, n).value, n)
    decreases t, 0, n
  {
    if n > 0 {
      FieldsAreDeep(w, t, members, at, n - 1);
      FieldDecreases(t, n - 1);
      var before := FieldsOf(w, t, members, at, n - 1).value;
      FieldIsDeep(w, t.fields[n - 1], members, at);
      var field := FieldValue(w, t.fields[n - 1], members, at);
      if field.Given? {
        OneMoreGiven(t.fields, before, n - 1, field.value);
      } else {
        OneMoreDefault(t.fields, before, n - 1);
      }
    }
  }

  /** A field that is given has its type; one left to its default has one. */
  lemma {:induction false} FieldIsDeep(w: Reader, f: Field, members: map<string, Json>, at: seq<Part>)
    requires HintOk(f.hint)
    ensures FieldValue(w, f, members, at).Given? ==> Deep(FieldValue(w, f, members, at).value, f.hint)
    ensures FieldValue(w, f, members, at).Default? <==>
              && f.default.Some?
              && (f.key !in members || (members[f.key] == JNull && AdmitsNone(f.hint)))
    decreases f.hint, 4
  {
    if FieldValue(w, f, members, at).Given? {
      LoadedIsDeep(w, members[f.key], f.hint, at + [Key(f.key)]);
    }
  }

  // ----------------------------------------------------------- text is never a collection

  /** Each item in its place, all of them in a tuple or a list, each value once in a set. */
  ghost predicate LoadedFrom(w: Reader, v: Value, items: seq<Json>, inner: Hint, at: seq<Part>)
    requires HintOk(inner) && (v.VColl? || v.VSet?)
  {
    && (forall i :: 0 <= i < |items| ==> ValueOf(w, items[i], inner, at + [Item(i)]).Ok?)
    && (v.VColl? ==> |v.items| == |items|
                     && forall i :: 0 <= i < |items| ==> v.items[i] == ValueOf(w, items[i], inner, at + [Item(i)]).value)
    && (v.VSet? ==> forall x :: x in v.elements <==>
                      exists i :: 0 <= i < |items| && x == ValueOf(w, items[i], inner, at + [Item(i)]).value)
  }

  /** TEXT AT A COLLECTION IS ALWAYS REFUSED, naming the place, and so is whatever else is
      not a list: a collection is loaded from a list, a tuple or list item for item, a set as
      the values of its items. */
  lemma TextIsNeverACollection(w: Reader, j: Json, h: Hint, at: seq<Part>)
    requires HintOk(h) && FirstArm(h.arms).value.TColl?
    ensures !j.JList? ==> ValueOf(w, j, h, at) == No(Refusal(WrongType, at))
    ensures ValueOf(w, j, h, at).Ok? ==>
              var arm, v := FirstArm(h.arms).value, ValueOf(w, j, h, at).value;
              j.JList? && IsColl(v, arm.kind) && HintOk(arm.inner) && LoadedFrom(w, v, j.items, arm.inner, at)
  {
    ArmDecreases(h);
    var arm := FirstArm(h.arms).value;
    assert ValueOf(w, j, h, at) == ValueAs(w, j, arm, at);
    if j.JList? && ItemsOf(w, j.items, arm.inner, at, |j.items|).Ok? {
      ItemForItem(w, j.items, arm.inner, at, |j.items|);
    }
  }

  lemma {:induction false} ItemForItem(w: Reader, items: seq<Json>, inner: Hint, at: seq<Part>, n: nat)
    requires HintOk(inner) && n <= |items| && ItemsOf(w, items, inner, at, n).Ok?
    ensures |ItemsOf(w, items, inner, at, n).value| == n
    ensures forall i :: 0 <= i < n ==> ValueOf(w, items[i], inner, at + [Item(i)]) == Ok(ItemsOf(w, items, inner, at, n).value[i])
    decreases n
  {
    if n > 0 {
      ItemForItem(w, items, inner, at, n - 1);
    }
  }

  /** And what refuses one field refuses the whole record: text at one of its collections,
      however good the rest of it is. */
  lemma TextAtAFieldRefusesTheRecord(w: Reader, t: Type, members: map<string, Json>, at: seq<Part>, k: nat)
    requires t.TRecord? && TypeOk(t) && k < |t.fields|
    requires FirstArm(t.fields[k].hint.arms).Some? && FirstArm(t.fields[k].hint.arms).value.TColl?
    requires t.fields[k].key in members && members[t.fields[k].key] != JNull && !members[t.fields[k].key].JList?
    ensures LoadRecord(w, JObject(members), t, at).No?
  {
    var f := t.fields[k];
    TextIsNeverACollection(w, members[f.key], f.hint, at + [Key(f.key)]);
    if FieldsOf(w, t, members, at, k).No? {
      RefusedStaysRefused(w, t, members, at, k, |t.fields|);
    } else {
      RefusedStaysRefused(w, t, members, at, k + 1, |t.fields|);
    }
  }

  /** So does an item of a list that is one. */
  lemma {:induction false} TextAtAnItemRefusesTheList(w: Reader, items: seq<Json>, inner: Hint, at: seq<Part>, k: nat, n: nat)
    requires HintOk(inner) && k < n <= |items| && FirstArm(inner.arms).value.TColl? && !items[k].JList?
    ensures ItemsOf(w, items, inner, at, n).No?
    decreases n
  {
    if k == n - 1 {
      TextIsNeverACollection(w, items[k], inner, at + [Item(k)]);
    } else {
      TextAtAnItemRefusesTheList(w, items, inner, at, k, n - 1);
    }
  }

  // ------------------------------------------------------- construction never raises

  lemma {:induction false} DeepConforms(v: Value, h: Hint)
    requires Deep(v, h)
    ensures Conforms(v, h)
  {
    var i :| 0 <= i < |h.arms| && DeepTo(v, h.arms[i]);
    assert ConformsTo(v, h.arms[i]);
  }

  /** Each default has the type its own field declares. */
  predicate DefaultsOk(fields: seq<Field>) {
    forall k :: 0 <= k < |fields| && fields[k].default.Some? ==> Conforms(fields[k].default.value, fields[k].hint)
  }

  /** What the dataclass is built with: the value given, or its own default. */
  predicate BuiltWith(f: Field, given: map<string, Value>, v: Value) {
    if f.name in given then v == given[f.name] else f.default == Some(v)
  }

  /** EVERY FIELD OF EVERY RECORD the loader builds has a value of its declared type, given or
      default, so the check a dataclass makes of its own fields finds nothing to raise. */
  lemma ConstructionIsTyped(w: Reader, t: Type, members: map<string, Json>, at: seq<Part>, k: nat)
    requires t.TRecord? && TypeOk(t) && DefaultsOk(t.fields) && k < |t.fields|
    requires FieldsOf(w, t, members, at, |t.fields|).Ok?
    ensures exists v :: BuiltWith(t.fields[k], FieldsOf(w, t, members, at, |t.fields|).value, v) && Conforms(v, t.fields[k].hint)
  {
    FieldsAreDeep(w, t, members, at, |t.fields|);
    var given := FieldsOf(w, t, members, at, |t.fields|).value;
    var f := t.fields[k];
    if f.name in given {
      DeepConforms(given[f.name], f.hint);
      assert BuiltWith(f, given, given[f.name]);
    } else {
      assert BuiltWith(f, given, f.default.value);
    }
  }

  // ------------------------------------------------------------------- completeness

  /** How days and instants are written so that they read back. */
  datatype Pen = Pen(day: Day -> string, instant: Instant -> string)

  /** A value a document can carry: of its type by the first alternative all the way down,
      its texts readable, its durations within range, its validators content. */
  ghost predicate Writable(w: Reader, pen: Pen, v: Value, t: Type)
    requires TypeOk(t)
    decreases t, 0
  {
    ConformsTo(v, t)
    && match t
       case TNone => false
       case TAny => false
       case TDay => w.day(pen.day(v.day)) == Some(v.day)
       case TInstant => w.instant(pen.instant(v.instant)) == Some(v.instant)
       case TDuration => -MOST_DAYS * 1440 <= v.amount < (MOST_DAYS + 1) * 1440
       case TColl(_, inner) => forall x :: x in Elements(v) ==> WritableAs(w, pen, x, inner)
       case TRecord(id, fields) =>
         && (forall k :: 0 <= k < |fields| && fields[k].name in v.given ==>
               WritableAs(w, pen, v.given[fields[k].name], fields[k].hint))
         && (forall k :: 0 <= k < |fields| && fields[k].default.None? ==> fields[k].name in v.given)
         && (forall name :: name in v.given ==> exists k :: 0 <= k < |fields| && fields[k].name == name)
         && w.refuses(id, v.given).None?
       case _ => true
  }

  ghost predicate WritableAs(w: Reader, pen: Pen, v: Value, h: Hint)
    requires HintOk(h)
    decreases h, 1
  {
    ArmDecreases(h);
    Writable(w, pen, v, FirstArm(h.arms).value)
  }

  /** The items a collection is written as: a set's elements in some order. */
  ghost function Listed(v: Value): (items: seq<Value>)
    requires v.VColl? || v.VSet?
    ensures Of(items) == Elements(v) && (v.VColl? ==> items == v.items)
  {
    if v.VColl? then v.items else InSomeOrder(v.elements)
  }

  ghost function InSomeOrder<T>(s: set<T>): (items: seq<T>)
    ensures Of(items) == s
    decreases |s|
  {
    if s == {} then []
    else
      var x :| x in s;
      var rest := InSomeOrder(s - {x});
      assert Of(rest + [x]) == Of(rest) + {x} == s;
      rest + [x]
  }

  ghost function Written(w: Reader, pen: Pen, v: Value, t: Type): (j: Json)
    requires TypeOk(t) && Writable(w, pen, v, t)
    ensures j != JNull
    decreases t, 2, 0
  {
    match t
    case TBool => JBool(v.b)
    case TInt => JInt(v.n)
    case TStr => JStr(v.text)
    case TDay => JStr(pen.day(v.day))
    case TInstant => JStr(pen.instant(v.instant))
    case TDuration => JInt(v.amount)
    case TEnum(_, _) => JStr(v.member)
    case TColl(_, inner) => JList(WrittenItems(w, pen, Listed(v), inner))
    case TRecord(_, fields) => JObject(WrittenRecord(w, pen, v.given, t, |fields|))
    case TNone => JFloat
    case TAny => JFloat
  }

  ghost predicate FieldsWritable(w: Reader, pen: Pen, given: map<string, Value>, t: Type)
    requires t.TRecord? && TypeOk(t)
  {
    forall k :: 0 <= k < |t.fields| && t.fields[k].name in given ==>
      WritableAs(w, pen, given[t.fields[k].name], t.fields[k].hint)
  }

  /** The members of the first `n` fields. */
  ghost function WrittenRecord(w: Reader, pen: Pen, given: map<string, Value>, t: Type, n: nat): (m: map<string, Json>)
    requires t.TRecord? && TypeOk(t) && n <= |t.fields| && FieldsWritable(w, pen, given, t)
    ensures forall key :: key in m ==> exists k :: 0 <= k < n && t.fields[k].key == key && t.fields[k].name in given
    ensures forall k :: 0 <= k < n && t.fields[k].name in given ==>
              t.fields[k].key in m && m[t.fields[k].key] == WrittenAs(w, pen, given[t.fields[k].name], t.fields[k].hint)
    decreases t, 1, n
  {
    if n == 0 then map[]
    else
      FieldDecreases(t, n - 1);
      var f := t.fields[n - 1];
      var before := WrittenRecord(w, pen, given, t, n - 1);
      assert FieldsApart(t.fields) && forall k :: 0 <= k < n - 1 ==> t.fields[k].key != f.key;
      if f.name in given then before[f.key := WrittenAs(w, pen, given[f.name], f.hint)] else before
  }

  ghost function WrittenItems(w: Reader, pen: Pen, items: seq<Value>, inner: Hint): (out: seq<Json>)
    requires HintOk(inner) && forall i :: 0 <= i < |items| ==> WritableAs(w, pen, items[i], inner)
    ensures |out| == |items| && forall i :: 0 <= i < |items| ==> out[i] == WrittenAs(w, pen, items[i], inner)
    decreases inner, 4, |items|
  {
    if items == [] then []
    else
      var n := |items| - 1;
      WrittenItems(w, pen, items[..n], inner) + [WrittenAs(w, pen, items[n], inner)]
  }

  ghost function WrittenAs(w: Reader, pen: Pen, v: Value, h: Hint): (j: Json)
    requires HintOk(h) && WritableAs(w, pen, v, h)
    ensures j != JNull
    decreases h, 3, 0
  {
    ArmDecreases(h);
    Written(w, pen, v, FirstArm(h.arms).value)
  }

  /** NOTHING IS OUT OF REACH: every such value is exactly what some document loads as. */
  lemma {:induction false} WrittenLoads(w: Reader, pen: Pen, v: Value, h: Hint, at: seq<Part>)
    requires HintOk(h) && WritableAs(w, pen, v, h)
    ensures ValueOf(w, WrittenAs(w, pen, v, h), h, at) == Ok(v)
    decreases h, 6, 0
  {
    ArmDecreases(h);
    var arm := FirstArm(h.arms).value;
    var j := Written(w, pen, v, arm);
    assert ValueOf(w, j, h, at) == ValueAs(w, j, arm, at);
    if arm.TColl? {
      var items := Listed(v);
      WrittenItemsLoad(w, pen, items, j.items, arm.inner, at, |items|);
      assert items[..|items|] == items;
      assert Collected(arm.kind, items) == v;
    } else if arm.TRecord? {
      WrittenRecordLoads(w, pen, v.given, arm, at);
      assert ValueAs(w, j, arm, at) == LoadRecord(w, j, arm, at);
    }
  }

  lemma {:induction false} WrittenItemsLoad(w: Reader, pen: Pen, items: seq<Value>, written: seq<Json>, inner: Hint,
                                            at: seq<Part>, n: nat)
    requires HintOk(inner) && n <= |items| == |written|
    requires forall i :: 0 <= i < |items| ==> WritableAs(w, pen, items[i], inner) && written[i] == WrittenAs(w, pen, items[i], inner)
    ensures ItemsOf(w, written, inner, at, n) == Ok(items[..n])
    decreases inner, 7, n
  {
    if n > 0 {
      WrittenItemsLoad(w, pen, items, written, inner, at, n - 1);
      WrittenItemLoads(w, pen, items[n - 1], written[n - 1], inner, at + [Item(n - 1)]);
      OneMoreItem(w, items, written, inner, at, n);
    }
  }

  lemma OneMoreItem(w: Reader, items: seq<Value>, written: seq<Json>, inner: Hint, at: seq<Part>, n: nat)
    requires HintOk(inner) && 0 < n <= |items| == |written| && ItemsOf(w, written, inner, at, n - 1) == Ok(items[..n - 1])
    requires ValueOf(w, written[n - 1], inner, at + [Item(n - 1)]) == Ok(items[n - 1])
    ensures ItemsOf(w, written, inner, at, n) == Ok(items[..n])
  {
    assert items[..n] == items[..n - 1] + [items[n - 1]];
  }

  lemma {:induction false} WrittenItemLoads(w: Reader, pen: Pen, item: Value, written: Json, inner: Hint, at: seq<Part>)
    requires HintOk(inner) && WritableAs(w, pen, item, inner) && written == WrittenAs(w, pen, item, inner)
    ensures ValueOf(w, written, inner, at) == Ok(item)
    decreases inner, 6, 1
  {
    WrittenLoads(w, pen, item, inner, at);
  }

  ghost predicate WrittenFields(w: Reader, pen: Pen, given: map<string, Value>, fields: seq<Field>, members: map<string, Json>)
    requires forall k :: 0 <= k < |fields| ==> HintOk(fields[k].hint)
  {
    && (forall k :: 0 <= k < |fields| ==> (fields[k].key in members <==> fields[k].name in given))
    && (forall k :: 0 <= k < |fields| && fields[k].name in given ==>
          WritableAs(w, pen, given[fields[k].name], fields[k].hint)
          && members[fields[k].key] == WrittenAs(w, pen, given[fields[k].name], fields[k].hint))
  }

  /** What is given for the first `n` fields. */
  ghost function GivenTo(given: map<string, Value>, fields: seq<Field>, n: nat): (m: map<string, Value>)
    requires n <= |fields|
    ensures forall name :: name in m <==> name in given && exists k :: 0 <= k < n && fields[k].name == name
    ensures forall name :: name in m ==> m[name] == given[name]
  {
    if n == 0 then map[]
    else
      var f := fields[n - 1];
      var before := GivenTo(given, fields, n - 1);
      if f.name in given then before[f.name := given[f.name]] else before
  }

  lemma {:induction false} WrittenFieldLoads(w: Reader, pen: Pen, given: map<string, Value>, t: Type, members: map<string, Json>,
                                             at: seq<Part>, k: nat)
    requires t.TRecord? && TypeOk(t) && k < |t.fields| && WrittenFields(w, pen, given, t.fields, members)
    requires RequiredGiven(given, t.fields)
    ensures var f := t.fields[k];
            FieldValue(w, f, members, at) == if f.name in given then Given(given[f.name]) else Default
    decreases t, 0, k
  {
    FieldDecreases(t, k);
    var f := t.fields[k];
    if f.name in given {
      WrittenLoads(w, pen, given[f.name], f.hint, at + [Key(f.key)]);
    }
  }

  lemma {:induction false} WrittenFieldsLoad(w: Reader, pen: Pen, given: map<string, Value>, t: Type, members: map<string, Json>,
                                             at: seq<Part>, n: nat)
    requires t.TRecord? && TypeOk(t) && n <= |t.fields| && WrittenFields(w, pen, given, t.fields, members)
    requires RequiredGiven(given, t.fields)
    ensures FieldsOf(w, t, members, at, n) == Ok(GivenTo(given, t.fields, n))
    decreases t, 1, n
  {
    if n > 0 {
      WrittenFieldsLoad(w, pen, given, t, members, at, n - 1);
      WrittenFieldLoads(w, pen, given, t, members, at, n - 1);
      OneMoreField(w, given, t, members, at, n);
    }
  }

  lemma OneMoreField(w: Reader, given: map<string, Value>, t: Type, members: map<string, Json>, at: seq<Part>, n: nat)
    requires t.TRecord? && TypeOk(t) && 0 < n <= |t.fields|
    requires FieldsOf(w, t, members, at, n - 1) == Ok(GivenTo(given, t.fields, n - 1))
    requires var f := t.fields[n - 1];
             FieldValue(w, f, members, at) == if f.name in given then Given(given[f.name]) else Default
    ensures FieldsOf(w, t, members, at, n) == Ok(GivenTo(given, t.fields, n))
  {
  }

  lemma WrittenMembers(w: Reader, pen: Pen, given: map<string, Value>, t: Type)
    requires t.TRecord? && TypeOk(t) && FieldsWritable(w, pen, given, t)
    ensures WrittenFields(w, pen, given, t.fields, WrittenRecord(w, pen, given, t, |t.fields|))
    ensures WrittenRecord(w, pen, given, t, |t.fields|).Keys <= KeysOf(t.fields)
  {
    var members := WrittenRecord(w, pen, given, t, |t.fields|);
    forall key | key in members ensures key in KeysOf(t.fields) {
      var k :| 0 <= k < |t.fields| && t.fields[k].key == key && t.fields[k].name in given;
      assert t.fields[k] in t.fields;
    }
    forall k | 0 <= k < |t.fields| ensures t.fields[k].key in members <==> t.fields[k].name in given {
      if t.fields[k].key in members {
        var i :| 0 <= i < |t.fields| && t.fields[i].key == t.fields[k].key && t.fields[i].name in given;
        assert i == k;
      }
    }
  }

  ghost predicate AllNamed(given: map<string, Value>, fields: seq<Field>) {
    forall name :: name in given ==> exists k :: 0 <= k < |fields| && fields[k].name == name
  }

  ghost predicate RequiredGiven(given: map<string, Value>, fields: seq<Field>) {
    forall k :: 0 <= k < |fields| && fields[k].default.None? ==> fields[k].name in given
  }

  lemma GivenToAll(given: map<string, Value>, fields: seq<Field>)
    requires AllNamed(given, fields)
    ensures GivenTo(given, fields, |fields|) == given
  {
  }

  lemma {:induction false} WrittenRecordLoads(w: Reader, pen: Pen, given: map<string, Value>, t: Type, at: seq<Part>)
    requires t.TRecord? && TypeOk(t) && FieldsWritable(w, pen, given, t) && w.refuses(t.id, given).None?
    requires RequiredGiven(given, t.fields) && AllNamed(given, t.fields)
    ensures LoadRecord(w, JObject(WrittenRecord(w, pen, given, t, |t.fields|)), t, at) == Ok(VRecord(t.id, given))
    decreases t, 2, 0
  {
    WrittenMembers(w, pen, given, t);
    WrittenFieldsLoad(w, pen, given, t, WrittenRecord(w, pen, given, t, |t.fields|), at, |t.fields|);
    GivenToAll(given, t.fields);
  }

  // ------------------------------------------------------ a refusal names its place

  ghost predicate Within(at: seq<Part>, place: seq<Part>) {
    |at| <= |place| && place[..|at|] == at
  }

  /** What the validators say is theirs; every other refusal is at or inside the place asked. */
  lemma {:induction false} RefusalIsInside(w: Reader, j: Json, h: Hint, at: seq<Part>)
    requires HintOk(h) && ValueOf(w, j, h, at).No?
    requires forall id, given :: w.refuses(id, given).Some? ==> w.refuses(id, given).value.code.OwnValidator?
    ensures var no := ValueOf(w, j, h, at).refusal; no.code.OwnValidator? || Within(at, no.at)
    decreases h, 2
  {
    ArmDecreases(h);
    var arm := FirstArm(h.arms).value;
    assert at[..|at|] == at;
    assert ValueOf(w, j, h, at) == ValueAs(w, j, arm, at);
    assert arm.TRecord? ==> ValueAs(w, j, arm, at) == LoadRecord(w, j, arm, at);
    if arm.TColl? && j.JList? {
      ItemRefusalIsInside(w, j.items, arm.inner, at, |j.items|);
    } else if arm.TRecord? && j.JObject? && j.members.Keys <= KeysOf(arm.fields)
              && FieldsOf(w, arm, j.members, at, |arm.fields|).No? {
      FieldRefusalIsInside(w, arm, j.members, at, |arm.fields|);
    }
  }

  lemma {:induction false} ItemRefusalIsInside(w: Reader, items: seq<Json>, inner: Hint, at: seq<Part>, n: nat)
    requires HintOk(inner) && n <= |items| && ItemsOf(w, items, inner, at, n).No?
    requires forall id, given :: w.refuses(id, given).Some? ==> w.refuses(id, given).value.code.OwnValidator?
    ensures var no := ItemsOf(w, items, inner, at, n).refusal; no.code.OwnValidator? || Within(at, no.at)
    decreases inner, 3, n
  {
    if ItemsOf(w, items, inner, at, n - 1).No? {
      ItemRefusalIsInside(w, items, inner, at, n - 1);
    } else {
      RefusalIsInside(w, items[n - 1], inner, at + [Item(n - 1)]);
      InsideInside(at, Item(n - 1), ItemsOf(w, items, inner, at, n).refusal.at);
    }
  }

  lemma InsideInside(at: seq<Part>, part: Part, place: seq<Part>)
    ensures Within(at + [part], place) ==> Within(at, place)
  {
    if Within(at + [part], place) {
      assert place[..|at|] == place[..|at| + 1][..|at|] == at;
    }
  }

  lemma {:induction false} FieldRefusalIsInside(w: Reader, t: Type, members: map<string, Json>, at: seq<Part>, n: nat)
    requires t.TRecord? && TypeOk(t) && n <= |t.fields| && FieldsOf(w, t, members, at, n).No?
    requires forall id, given :: w.refuses(id, given).Some? ==> w.refuses(id, given).value.code.OwnValidator?
    ensures var no := FieldsOf(w, t, members, at, n).refusal; no.code.OwnValidator? || Within(at, no.at)
    decreases t, 0, n
  {
    if FieldsOf(w, t, members, at, n - 1).No? {
      FieldRefusalIsInside(w, t, members, at, n - 1);
    } else {
      FieldDecreases(t, n - 1);
      var f := t.fields[n - 1];
      if f.key in members && members[f.key] != JNull {
        RefusalIsInside(w, members[f.key], f.hint, at + [Key(f.key)]);
        InsideInside(at, Key(f.key), FieldsOf(w, t, members, at, n).refusal.at);
      }
    }
  }

  // ------------------------------------------------------------------ load, or degrade

  method Load(w: Reader, j: Json, t: Type, at: seq<Part>) returns (out: Loaded<Value>)
    requires t.TRecord? && TypeOk(t)
    ensures out == LoadRecord(w, j, t, at)
    ensures out.Ok? ==> DeepTo(out.value, t)
  {
    if !j.JObject? { return No(Refusal(FieldBlank, at)); }
    if !(j.members.Keys <= KeysOf(t.fields)) { return No(Refusal(UnknownField, at)); }
    var given: map<string, Value> := map[];
    for k := 0 to |t.fields|
      invariant FieldsOf(w, t, j.members, at, k) == Ok(given)
      invariant forall n :: 0 <= n <= k ==> FieldsOf(w, t, j.members, at, n).Ok?
    {
      match FieldValue(w, t.fields[k], j.members, at)
      case Given(v) => given := given[t.fields[k].name := v];
      case Default =>
      case Refuses(refusal) =>
        RefusedStaysRefused(w, t, j.members, at, k + 1, |t.fields|);
        return No(refusal);
    }
    FieldsAreDeep(w, t, j.members, at, |t.fields|);
    var refused := w.refuses(t.id, given);
    out := if refused.Some? then No(refused.value) else Ok(VRecord(t.id, given));
  }

  lemma {:induction false} RefusedStaysRefused(w: Reader, t: Type, members: map<string, Json>, at: seq<Part>, k: nat, n: nat)
    requires t.TRecord? && TypeOk(t) && k <= n <= |t.fields| && FieldsOf(w, t, members, at, k).No?
    ensures FieldsOf(w, t, members, at, n) == FieldsOf(w, t, members, at, k)
    decreases n
  {
    if k < n {
      RefusedStaysRefused(w, t, members, at, k, n - 1);
    }
  }

  datatype Degraded = Value(value: Value) | Carrier(value: Value) | Marker(refusal: Refusal)

  /** The carrier's own fields, of the first `n` declared. */
  function CarrierFields(w: Reader, t: Type, names: set<string>, members: map<string, Json>, at: seq<Part>, n: nat)
    : Loaded<map<string, Value>>
    requires t.TRecord? && TypeOk(t) && n <= |t.fields|
    decreases n
  {
    if n == 0 then Ok(map[])
    else
      var before := CarrierFields(w, t, names, members, at, n - 1);
      if before.No? || t.fields[n - 1].name !in names then before
      else
        match FieldValue(w, t.fields[n - 1], members, at)
        case Given(v) => Ok(before.value[t.fields[n - 1].name := v])
        case Default => before
        case Refuses(refusal) => No(refusal)
  }

  /** ... with every other required field carried as None, and the refusal as the marker. */
  function CarrierOf(t: Type, read: map<string, Value>, marker: Refusal): map<string, Value>
    requires t.TRecord?
  {
    var missing := set f | f in t.fields && f.name !in read && f.default.None? :: f.name;
    (map name | name in missing + read.Keys :: if name in read then read[name] else VNone)["unreadable" := VUnreadable(marker)]
  }

  function LoadOrDegrade(w: Reader, j: Json, t: Type, names: set<string>, at: seq<Part>): Degraded
    requires t.TRecord? && TypeOk(t)
  {
    var loaded := LoadRecord(w, j, t, at);
    if loaded.Ok? then Degraded.Value(loaded.value)
    else if names == {} || !j.JObject? then Marker(loaded.refusal)
    else
      var read := CarrierFields(w, t, names, j.members, at, |t.fields|);
      if read.No? then Marker(loaded.refusal)
      else
        var carrier := CarrierOf(t, read.value, loaded.refusal);
        if w.refuses(t.id, carrier).Some? then Marker(loaded.refusal) else Carrier(VRecord(t.id, carrier))
  }

  /** An exit's document is loaded, or it is the refusal carried: on the record itself, each
      field of which that was read has its type, or bare. It is never raised. */
  method DegradeAtAnExit(w: Reader, j: Json, t: Type, names: set<string>, at: seq<Part>) returns (out: Degraded)
    requires t.TRecord? && TypeOk(t)
    ensures out == LoadOrDegrade(w, j, t, names, at)
    ensures out.Value? <==> LoadRecord(w, j, t, at).Ok?
    ensures out.Value? ==> DeepTo(out.value, t)
    ensures !out.Value? ==>
              var refused := LoadRecord(w, j, t, at).refusal;
              if out.Carrier? then "unreadable" in out.value.given && out.value.given["unreadable"] == VUnreadable(refused)
              else out.refusal == refused
  {
    var loaded := Load(w, j, t, at);
    if loaded.Ok? { return Degraded.Value(loaded.value); }
    var marker := loaded.refusal;
    if names == {} || !j.JObject? { return Marker(marker); }
    var read: map<string, Value> := map[];
    for k := 0 to |t.fields|
      invariant CarrierFields(w, t, names, j.members, at, k) == Ok(read)
    {
      if t.fields[k].name in names {
        match FieldValue(w, t.fields[k], j.members, at)
        case Given(v) => read := read[t.fields[k].name := v];
        case Default =>
        case Refuses(refusal) =>
          CarrierStaysRefused(w, t, names, j.members, at, k + 1, |t.fields|);
          return Marker(marker);
      }
    }
    var carrier := CarrierOf(t, read, marker);
    out := if w.refuses(t.id, carrier).Some? then Marker(marker) else Carrier(VRecord(t.id, carrier));
  }

  lemma {:induction false} CarrierStaysRefused(w: Reader, t: Type, names: set<string>, members: map<string, Json>,
                                               at: seq<Part>, k: nat, n: nat)
    requires t.TRecord? && TypeOk(t) && k <= n <= |t.fields| && CarrierFields(w, t, names, members, at, k).No?
    ensures CarrierFields(w, t, names, members, at, n) == CarrierFields(w, t, names, members, at, k)
    decreases n
  {
    if k < n {
      CarrierStaysRefused(w, t, names, members, at, k, n - 1);
    }
  }

  lemma {:induction false} CarrierReads(w: Reader, t: Type, names: set<string>, members: map<string, Json>, at: seq<Part>, n: nat)
    requires t.TRecord? && TypeOk(t) && n <= |t.fields| && CarrierFields(w, t, names, members, at, n).Ok?
    ensures var read := CarrierFields(w, t, names, members, at, n).value;
            && (forall k :: 0 <= k < n && t.fields[k].name in read ==>
                  t.fields[k].name in names && Deep(read[t.fields[k].name], t.fields[k].hint))
            && (forall k :: 0 <= k < n && t.fields[k].name in names && t.fields[k].default.None? ==> t.fields[k].name in read)
            && (forall name :: name in read ==> exists k :: 0 <= k < n && t.fields[k].name == name)
    decreases n
  {
    if n > 0 {
      CarrierReads(w, t, names, members, at, n - 1);
      assert forall k :: 0 <= k < n - 1 ==> t.fields[k].name != t.fields[n - 1].name;
      if t.fields[n - 1].name in names {
        FieldIsDeep(w, t.fields[n - 1], members, at);
      }
    }
  }

  /** THE CARRIER IS WHAT A STORED ROW BECOMES: its own fields read and of their types, every
      other required field None, and the load's own refusal the marker. */
  lemma CarrierIsReadable(w: Reader, j: Json, t: Type, names: set<string>, at: seq<Part>)
    requires t.TRecord? && TypeOk(t)
    requires forall k :: 0 <= k < |t.fields| ==> t.fields[k].name != "unreadable"
    requires LoadOrDegrade(w, j, t, names, at).Carrier?
    ensures LoadOrDegrade(w, j, t, names, at).value.VRecord?
    ensures var given := LoadOrDegrade(w, j, t, names, at).value.given;
            forall k :: 0 <= k < |t.fields| && t.fields[k].default.None? ==>
              var f := t.fields[k];
              f.name in given && if f.name in names then Deep(given[f.name], f.hint) else given[f.name] == VNone
  {
    CarrierReads(w, t, names, j.members, at, |t.fields|);
    var read := CarrierFields(w, t, names, j.members, at, |t.fields|).value;
    forall k | 0 <= k < |t.fields| && t.fields[k].default.None?
      ensures t.fields[k].name in CarrierOf(t, read, LoadRecord(w, j, t, at).refusal)
    {
      assert t.fields[k] in t.fields;
    }
  }
}
