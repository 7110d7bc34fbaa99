/**
 The canonical form a checksum is taken over (src/finvet/audit/integrity.py).

 The JSON text with sorted keys is a function of the Canon tree, in which an object is a map; the
 digest is any function of that tree, so nothing proved here rests on SHA-256.
 */
module Integrity {
  import opened Wrappers

  /** A dictionary key and what str() makes of it. */
  datatype DictKey = StrKey(text: string) | OtherKey(text: string)

  /** A Python value as far as normalize_checksum_value tells values apart. */
  datatype Value =
    | Null
    | Bool(b: bool)
    | Int(i: int)
    | Str(s: string)
    | Float(r: real)
    | NegativeZero                 // the float -0.0
    | NonFiniteFloat
    | Decimal(fixed: string)       // finite, with its format(value, "f")
    | NonFiniteDecimal
    | Moment(iso: string)          // a date or datetime, with its isoformat()
    | Dict(entries: seq<(DictKey, Value)>)
    | List(items: seq<Value>)
    | Tuple(items: seq<Value>)
    | Unsupported

  type Entries = seq<(DictKey, Value)>

  /** The position of a string key, |es| if it is not there. */
  function Find(es: Entries, k: string): (i: nat)
    ensures i <= |es|
    ensures i < |es| ==> es[i].0 == StrKey(k)
    ensures i == |es| ==> forall j :: 0 <= j < |es| ==> es[j].0 != StrKey(k)
  {
    if es == [] then 0
    else
      var i := Find(es[..|es| - 1], k);
      if i < |es| - 1 then i else if es[|es| - 1].0 == StrKey(k) then |es| - 1 else |es|
  }

  /** d[k] = v: in place when k is there, appended when it is not. */
  function Put(es: Entries, k: string, v: Value): Entries {
    var i := Find(es, k);
    if i < |es| then es[i := (StrKey(k), v)] else es + [(StrKey(k), v)]
  }

  /** normalize_checksum_value; None where it raises. */
  function Normalize(v: Value): Option<Value>
    decreases v, 1
  {
    match v
    case Null | Bool(_) | Int(_) | Str(_) | Float(_) | NegativeZero => Some(v)
    case NonFiniteFloat | NonFiniteDecimal | Unsupported => None
    case Decimal(fixed) => Some(Str(fixed))
    case Moment(iso) => Some(Str(iso))
    case Dict(entries) =>
      var es := NormalizeEntries(entries);
      if es == None then None else Some(Dict(es.value))
    case List(items) =>
      var xs := NormalizeItems(items);
      if xs == None then None else Some(List(xs.value))
    case Tuple(items) =>
      var xs := NormalizeItems(items);
      if xs == None then None else Some(List(xs.value))
  }

  function NormalizeEntries(es: Entries): Option<Entries>
    decreases es, 0
  {
    if es == [] then Some([])
    else
      var last := es[|es| - 1];
      assert last.1 < last;
      var front, v := NormalizeEntries(es[..|es| - 1]), Normalize(last.1);
      if front == None || v == None then None else Some(Put(front.value, last.0.text, v.value))
  }

  function NormalizeItems(xs: seq<Value>): Option<seq<Value>>
    decreases xs, 0
  {
    if xs == [] then Some([])
    else
      var front, v := NormalizeItems(xs[..|xs| - 1]), Normalize(xs[|xs| - 1]);
      if front == None || v == None then None else Some(front.value + [v.value])
  }

  // ----- what is refused -----

  /** No number in v, however deep, is infinite or not a number, and no object is of an unknown type. */
  predicate Representable(v: Value)
    decreases v
  {
    match v
    case NonFiniteFloat | NonFiniteDecimal | Unsupported => false
    case Dict(entries) => forall i | 0 <= i < |entries| :: Representable(entries[i].1)
    case List(items) => forall i | 0 <= i < |items| :: Representable(items[i])
    case Tuple(items) => forall i | 0 <= i < |items| :: Representable(items[i])
    case _ => true
  }

  /** Normalisation is defined exactly on representable values. */
  lemma {:induction false} RefusesUnrepresentable(v: Value)
    ensures Normalize(v).Some? <==> Representable(v)
    decreases v, 1
  {
    match v
    case Dict(entries) => RefusesInEntries(entries);
    case List(items) => RefusesInItems(items);
    case Tuple(items) => RefusesInItems(items);
    case _ =>
  }

  lemma {:induction false} RefusesInEntries(es: Entries)
    ensures NormalizeEntries(es).Some? <==> forall i :: 0 <= i < |es| ==> Representable(es[i].1)
    decreases es, 0
  {
    if es != [] {
      RefusesInEntries(es[..|es| - 1]);
      assert es[|es| - 1].1 < es[|es| - 1];
      RefusesUnrepresentable(es[|es| - 1].1);
    }
  }

  lemma {:induction false} RefusesInItems(xs: seq<Value>)
    ensures NormalizeItems(xs).Some? <==> forall i :: 0 <= i < |xs| ==> Representable(xs[i])
    decreases xs, 0
  {
    if xs != [] {
      RefusesInItems(xs[..|xs| - 1]);
      RefusesUnrepresentable(xs[|xs| - 1]);
    }
  }

  // ----- normal values -----

  /** Keys are strings, each once. */
  predicate StringKeyed(es: Entries) {
    && (forall i :: 0 <= i < |es| ==> es[i].0.StrKey?)
    && (forall i, j :: 0 <= i < j < |es| ==> es[i].0 != es[j].0)
  }

  predicate Normal(v: Value)
    decreases v
  {
    match v
    case Null | Bool(_) | Int(_) | Str(_) | Float(_) | NegativeZero => true
    case Dict(entries) => StringKeyed(entries) && forall i | 0 <= i < |entries| :: Normal(entries[i].1)
    case List(items) => forall i | 0 <= i < |items| :: Normal(items[i])
    case _ => false
  }

  ghost predicate NormalEntries(es: Entries) {
    StringKeyed(es) && forall i :: 0 <= i < |es| ==> Normal(es[i].1)
  }

  lemma PutKeepsNormal(es: Entries, k: string, v: Value)
    requires NormalEntries(es) && Normal(v)
    ensures NormalEntries(Put(es, k, v))
  {
  }

  lemma {:induction false} NormalizeIsNormal(v: Value)
    requires Normalize(v).Some?
    ensures Normal(Normalize(v).value)
    decreases v, 1
  {
    match v
    case Dict(entries) => NormalizedEntriesNormal(entries);
    case List(items) => NormalizedItemsNormal(items);
    case Tuple(items) => NormalizedItemsNormal(items);
    case _ =>
  }

  lemma {:induction false} NormalizedEntriesNormal(es: Entries)
    requires NormalizeEntries(es).Some?
    ensures NormalEntries(NormalizeEntries(es).value)
    decreases es, 0
  {
    if es != [] {
      var last := es[|es| - 1];
      NormalizedEntriesNormal(es[..|es| - 1]);
      assert last.1 < last;
      NormalizeIsNormal(last.1);
      var front, v := NormalizeEntries(es[..|es| - 1]).value, Normalize(last.1).value;
      PutKeepsNormal(front, last.0.text, v);
    }
  }

  lemma {:induction false} NormalizedItemsNormal(xs: seq<Value>)
    requires NormalizeItems(xs).Some?
    ensures forall i :: 0 <= i < |NormalizeItems(xs).value| ==> Normal(NormalizeItems(xs).value[i])
    decreases xs, 0
  {
    if xs != [] {
      NormalizedItemsNormal(xs[..|xs| - 1]);
      NormalizeIsNormal(xs[|xs| - 1]);
    }
  }

  lemma {:induction false} NormalIsFixed(v: Value)
    requires Normal(v)
    ensures Normalize(v) == Some(v)
    decreases v, 1
  {
    match v
    case Dict(entries) => NormalEntriesFixed(entries);
    case List(items) => NormalItemsFixed(items);
    case _ =>
  }

  lemma {:induction false} NormalEntriesFixed(es: Entries)
    requires NormalEntries(es)
    ensures NormalizeEntries(es) == Some(es)
    decreases es, 0
  {
    if es != [] {
      var front, last := es[..|es| - 1], es[|es| - 1];
      NormalEntriesFixed(front);
      assert last.1 < last;
      NormalIsFixed(last.1);
      assert last == (StrKey(last.0.text), last.1);
      assert Find(front, last.0.text) == |front|;
      assert es == front + [last];
    }
  }

  lemma {:induction false} NormalItemsFixed(xs: seq<Value>)
    requires forall i :: 0 <= i < |xs| ==> Normal(xs[i])
    ensures NormalizeItems(xs) == Some(xs)
    decreases xs, 0
  {
    if xs != [] {
      var front, last := xs[..|xs| - 1], xs[|xs| - 1];
      assert forall i :: 0 <= i < |front| ==> front[i] == xs[i];
      NormalItemsFixed(front);
      NormalIsFixed(last);
      ItemsSnocFixed(front, last, xs);
    }
  }

  lemma ItemsSnocFixed(front: seq<Value>, last: Value, xs: seq<Value>)
    requires xs != [] && front == xs[..|xs| - 1] && last == xs[|xs| - 1]
    requires NormalizeItems(front) == Some(front) && Normalize(last) == Some(last)
    ensures NormalizeItems(xs) == Some(xs)
  {
    LastItemNormalized(xs);
    SplitAtLast(front, last, xs);
  }

  lemma LastItemNormalized(xs: seq<Value>)
    requires xs != []
    ensures var front, v := NormalizeItems(xs[..|xs| - 1]), Normalize(xs[|xs| - 1]);
      NormalizeItems(xs) == if front == None || v == None then None else Some(front.value + [v.value])
  {
  }

  lemma SplitAtLast(front: seq<Value>, last: Value, xs: seq<Value>)
    requires xs != [] && front == xs[..|xs| - 1] && last == xs[|xs| - 1]
    ensures front + [last] == xs
  {
  }

  /** Normalising twice is normalising once. */
  lemma NormalizeIdempotent(v: Value)
    requires Normalize(v).Some?
    ensures Normalize(Normalize(v).value) == Normalize(v)
  {
    NormalizeIsNormal(v);
    NormalIsFixed(Normalize(v).value);
  }

  // ----- the encoded form -----

  datatype Canon =
    | CNull
    | CBool(b: bool)
    | CInt(i: int)
    | CStr(s: string)
    | CFloat(r: real)
    | CNegativeZero
    | CObject(fields: map<string, Canon>)
    | CArray(items: seq<Canon>)

  /** The JSON encoding of a normal value with sorted keys. */
  function Encode(v: Value): Canon
    requires Normal(v)
    decreases v, 1
  {
    match v
    case Null => CNull
    case Bool(b) => CBool(b)
    case Int(i) => CInt(i)
    case Str(s) => CStr(s)
    case Float(r) => CFloat(r)
    case NegativeZero => CNegativeZero
    case Dict(entries) => CObject(EncodeEntries(entries))
    case List(items) => CArray(EncodeItems(items))
  }

  function EncodeEntries(es: Entries): map<string, Canon>
    requires NormalEntries(es)
    decreases es, 0
  {
    if es == [] then map[]
    else
      var last := es[|es| - 1];
      assert last.1 < last;
      EncodeEntries(es[..|es| - 1])[last.0.text := Encode(last.1)]
  }

  function EncodeItems(xs: seq<Value>): (r: seq<Canon>)
    requires forall i :: 0 <= i < |xs| ==> Normal(xs[i])
    ensures |r| == |xs|
    decreases xs, 0
  {
    if xs == [] then [] else EncodeItems(xs[..|xs| - 1]) + [Encode(xs[|xs| - 1])]
  }

  predicate Has(es: Entries, k: string) {
    Find(es, k) < |es|
  }

  lemma {:induction false} EncodedField(es: Entries, k: string)
    requires NormalEntries(es)
    ensures k in EncodeEntries(es) <==> Has(es, k)
    ensures Has(es, k) ==> EncodeEntries(es)[k] == Encode(es[Find(es, k)].1)
  {
    if es != [] {
      EncodedField(es[..|es| - 1], k);
    }
  }

  lemma {:induction false} EncodedItems(xs: seq<Value>)
    requires forall i :: 0 <= i < |xs| ==> Normal(xs[i])
    ensures forall i :: 0 <= i < |xs| ==> EncodeItems(xs)[i] == Encode(xs[i])
  {
    if xs != [] {
      EncodedItems(xs[..|xs| - 1]);
    }
  }

  // ----- reordering -----

  /** a and b differ at most in the order of the keys of their dictionaries, at any depth. */
  ghost predicate Reordered(a: Value, b: Value)
    decreases a
  {
    match (a, b)
    case (Dict(x), Dict(y)) =>
      && (forall k :: Has(x, k) <==> Has(y, k))
      && (forall k | Has(x, k) && Has(y, k) :: assert x[Find(x, k)].1 < x[Find(x, k)]; Reordered(x[Find(x, k)].1, y[Find(y, k)].1))
    case (List(x), List(y)) => |x| == |y| && forall i | 0 <= i < |x| :: Reordered(x[i], y[i])
    case _ => a == b
  }

  /** Two normal values have one encoding exactly when one is a reordering of the other. */
  lemma {:induction false} SameEncodingIffReordered(a: Value, b: Value)
    requires Normal(a) && Normal(b)
    ensures Encode(a) == Encode(b) <==> Reordered(a, b)
    decreases a, 1
  {
    match (a, b)
    case (Dict(x), Dict(y)) => SameFieldsIffReordered(x, y);
    case (List(x), List(y)) => SameItemsIffReordered(x, y);
    case _ =>
  }

  lemma {:induction false} SameFieldsIffReordered(x: Entries, y: Entries)
    requires NormalEntries(x) && NormalEntries(y)
    ensures EncodeEntries(x) == EncodeEntries(y) <==> Reordered(Dict(x), Dict(y))
    decreases x, 0
  {
    var m, n := EncodeEntries(x), EncodeEntries(y);
    forall k
      ensures k in m <==> Has(x, k)
      ensures k in n <==> Has(y, k)
      ensures k in m && k in n ==> (m[k] == n[k] <==> Reordered(x[Find(x, k)].1, y[Find(y, k)].1))
    {
      EncodedField(x, k);
      EncodedField(y, k);
      if Has(x, k) && Has(y, k) {
        var e := x[Find(x, k)];
        assert e.1 < e;
        SameEncodingIffReordered(e.1, y[Find(y, k)].1);
      }
    }
  }

  lemma {:induction false} SameItemsIffReordered(x: seq<Value>, y: seq<Value>)
    requires forall i :: 0 <= i < |x| ==> Normal(x[i])
    requires forall i :: 0 <= i < |y| ==> Normal(y[i])
    ensures EncodeItems(x) == EncodeItems(y) <==> Reordered(List(x), List(y))
    decreases x, 0
  {
    EncodedItems(x);
    EncodedItems(y);
    if |x| == |y| {
      forall i | 0 <= i < |x| ensures EncodeItems(x)[i] == EncodeItems(y)[i] <==> Reordered(x[i], y[i]) {
        SameEncodingIffReordered(x[i], y[i]);
      }
    }
  }

  // ----- the checksum -----

  /** What is hashed; None where normalisation raises. */
  function Canonical(v: Value): Option<Canon> {
    if Normalize(v) == None then None
    else
      NormalizeIsNormal(v);
      Some(Encode(Normalize(v).value))
  }

  /** Everything but a container is encoded as what it is; decimals, dates and strings as their text. */
  lemma CanonicalLeaves(b: bool, i: int, r: real, text: string)
    ensures Canonical(Null) == Some(CNull) && Canonical(Bool(b)) == Some(CBool(b)) && Canonical(Int(i)) == Some(CInt(i))
    ensures Canonical(Float(r)) == Some(CFloat(r)) && Canonical(NegativeZero) == Some(CNegativeZero)
    ensures Canonical(Str(text)) == Canonical(Decimal(text)) == Canonical(Moment(text)) == Some(CStr(text))
    ensures Canonical(NonFiniteFloat) == Canonical(NonFiniteDecimal) == Canonical(Unsupported) == None
  {
  }

  lemma CanonicalTuple(xs: seq<Value>)
    ensures Canonical(Tuple(xs)) == Canonical(List(xs))
  {
  }

  /** No later entry has the text of this one's key. */
  ghost predicate LastWithText(es: Entries, i: nat)
    requires i < |es|
  {
    forall j :: i < j < |es| ==> es[j].0.text != es[i].0.text
  }

  /**
   A dictionary becomes the object whose fields are the texts of its keys, each with the canonical form of
   the last value under it.
   */
  lemma CanonicalOfDict(es: Entries)
    ensures Canonical(Dict(es)).Some? <==> forall i :: 0 <= i < |es| ==> Canonical(es[i].1).Some?
    ensures Canonical(Dict(es)).Some? ==>
      && Canonical(Dict(es)).value.CObject?
      && var fields := Canonical(Dict(es)).value.fields;
         && (forall i :: 0 <= i < |es| ==> es[i].0.text in fields)
         && (forall k :: k in fields ==> exists i :: 0 <= i < |es| && es[i].0.text == k)
         && (forall i :: 0 <= i < |es| && LastWithText(es, i) ==> Canonical(es[i].1) == Some(fields[es[i].0.text]))
  {
    NormalizedByText(es);
    if Normalize(Dict(es)).Some? {
      NormalizeIsNormal(Dict(es));
      FieldsByText(NormalizeEntries(es).value, es);
    }
  }

  lemma FieldsByText(n: Entries, es: Entries)
    requires NormalEntries(n) && ByText(n, es)
    ensures var fields := EncodeEntries(n);
      && (forall i :: 0 <= i < |es| ==> es[i].0.text in fields)
      && (forall k :: k in fields ==> exists i :: 0 <= i < |es| && es[i].0.text == k)
      && (forall i :: 0 <= i < |es| && LastWithText(es, i) ==>
            Normalize(es[i].1).Some? && Normal(Normalize(es[i].1).value)
            && fields[es[i].0.text] == Encode(Normalize(es[i].1).value))
  {
    forall k ensures k in EncodeEntries(n) <==> Has(n, k)
      ensures Has(n, k) ==> EncodeEntries(n)[k] == Encode(n[Find(n, k)].1)
    {
      EncodedField(n, k);
    }
  }

  lemma {:induction false} NormalizedByText(es: Entries)
    ensures NormalizeEntries(es).Some? <==> AllNormalize(es)
    ensures NormalizeEntries(es).Some? ==> ByText(NormalizeEntries(es).value, es)
  {
    if es != [] {
      var front, last := es[..|es| - 1], es[|es| - 1];
      assert es == front + [last];
      NormalizedByText(front);
      LastNormalized(es);
      AllNormalizeSnoc(front, last);
      if NormalizeEntries(front).Some? && Normalize(last.1).Some? {
        NormalizedEntriesNormal(front);
        PutByText(NormalizeEntries(front).value, front, last, Normalize(last.1).value);
      }
    }
  }

  ghost predicate AllNormalize(es: Entries) {
    forall i :: 0 <= i < |es| ==> Normalize(es[i].1).Some?
  }

  lemma AllNormalizeSnoc(front: Entries, last: (DictKey, Value))
    ensures AllNormalize(front + [last]) <==> AllNormalize(front) && Normalize(last.1).Some?
  {
    var es := front + [last];
    assert es[|front|] == last && forall i :: 0 <= i < |front| ==> es[i] == front[i];
  }

  lemma LastNormalized(es: Entries)
    requires es != []
    ensures var front, v := NormalizeEntries(es[..|es| - 1]), Normalize(es[|es| - 1].1);
      NormalizeEntries(es) == if front == None || v == None then None else Some(Put(front.value, es[|es| - 1].0.text, v.value))
  {
  }

  /** n has the texts of the keys of es, each with the last of its values, normalised. */
  ghost predicate ByText(n: Entries, es: Entries) {
    && (forall i :: 0 <= i < |es| ==> Has(n, es[i].0.text))
    && (forall k :: Has(n, k) ==> exists i :: 0 <= i < |es| && es[i].0.text == k)
    && (forall i :: 0 <= i < |es| && LastWithText(es, i) ==> Normalize(es[i].1) == Some(n[Find(n, es[i].0.text)].1))
  }

  lemma PutByText(n: Entries, front: Entries, last: (DictKey, Value), v: Value)
    requires StringKeyed(n) && ByText(n, front) && Normalize(last.1) == Some(v)
    ensures ByText(Put(n, last.0.text, v), front + [last])
  {
    var es, p := front + [last], Put(n, last.0.text, v);
    forall k ensures Has(p, k) <==> k == last.0.text || Has(n, k)
      ensures Has(p, k) ==> p[Find(p, k)].1 == if k == last.0.text then v else n[Find(n, k)].1
    {
      PutFinds(n, last.0.text, v, k);
    }
    forall i | 0 <= i < |es| ensures Has(p, es[i].0.text) {
      assert i == |front| || es[i] == front[i];
    }
    forall k | Has(p, k) ensures exists i :: 0 <= i < |es| && es[i].0.text == k {
      if k == last.0.text {
        assert es[|front|] == last;
      } else {
        var i :| 0 <= i < |front| && front[i].0.text == k;
        assert es[i] == front[i];
      }
    }
    forall i | 0 <= i < |es| && LastWithText(es, i) ensures Normalize(es[i].1) == Some(p[Find(p, es[i].0.text)].1) {
      if i < |front| {
        assert es[|front|] == last && es[i] == front[i];
        assert forall j :: 0 <= j < |front| ==> es[j] == front[j];
        assert LastWithText(front, i);
      }
    }
  }

  lemma PutFinds(es: Entries, k: string, v: Value, q: string)
    requires StringKeyed(es)
    ensures var p := Put(es, k, v);
      && (Has(p, q) <==> q == k || Has(es, q))
      && (Has(p, q) ==> p[Find(p, q)].1 == if q == k then v else es[Find(es, q)].1)
  {
    var p, i := Put(es, k, v), Find(es, k);
    if q == k {
      assert p[i].0 == StrKey(q);
      OneAt(p, q, i);
    } else if Has(es, q) {
      assert p[Find(es, q)].0 == StrKey(q);
      OneAt(p, q, Find(es, q));
    } else {
      assert forall j :: 0 <= j < |p| ==> p[j].0 != StrKey(q);
    }
  }

  lemma OneAt(es: Entries, k: string, i: nat)
    requires i < |es| && es[i].0 == StrKey(k) && forall j :: 0 <= j < |es| && j != i ==> es[j].0 != StrKey(k)
    ensures Find(es, k) == i
  {
  }

  /** The object's fields are these entries, each with its canonical value. */
  ghost predicate FieldsOf(fields: map<string, Canon>, es: Entries) {
    && (forall i :: 0 <= i < |es| ==> es[i].0.text in fields && Canonical(es[i].1) == Some(fields[es[i].0.text]))
    && (forall k :: k in fields ==> exists i :: 0 <= i < |es| && es[i].0.text == k)
  }

  lemma CanonicalDict(es: Entries)
    requires StringKeyed(es)
    ensures Canonical(Dict(es)).Some? <==> forall i :: 0 <= i < |es| ==> Canonical(es[i].1).Some?
    ensures Canonical(Dict(es)).Some? ==> Canonical(Dict(es)).value.CObject? && FieldsOf(Canonical(Dict(es)).value.fields, es)
  {
    CanonicalOfDict(es);
    forall i | 0 <= i < |es| ensures LastWithText(es, i) {
      forall j | i < j < |es| ensures es[j].0.text != es[i].0.text {
        assert es[i].0 == StrKey(es[i].0.text) && es[j].0 == StrKey(es[j].0.text);
      }
    }
  }

  /** A list becomes the array of its items' canonical forms. */
  lemma {:induction false} CanonicalList(xs: seq<Value>)
    ensures Canonical(List(xs)).Some? <==> forall i :: 0 <= i < |xs| ==> Canonical(xs[i]).Some?
    ensures Canonical(List(xs)).Some? ==>
      && Canonical(List(xs)).value.CArray? && |Canonical(List(xs)).value.items| == |xs|
      && forall i :: 0 <= i < |xs| ==> Canonical(xs[i]) == Some(Canonical(List(xs)).value.items[i])
  {
    NormalizedItemByItem(xs);
    if Normalize(List(xs)).Some? {
      NormalizeIsNormal(List(xs));
      EncodedItems(NormalizeItems(xs).value);
    }
  }

  lemma {:induction false} NormalizedItemByItem(xs: seq<Value>)
    ensures NormalizeItems(xs).Some? <==> forall i :: 0 <= i < |xs| ==> Normalize(xs[i]).Some?
    ensures NormalizeItems(xs).Some? ==>
      && |NormalizeItems(xs).value| == |xs|
      && forall i :: 0 <= i < |xs| ==> Normalize(xs[i]) == Some(NormalizeItems(xs).value[i])
  {
    if xs != [] {
      NormalizedItemByItem(xs[..|xs| - 1]);
    }
  }

  /** compute_execution_checksum, for a digest of the encoding. */
  function Checksum(v: Value, digest: Canon -> string): Option<string> {
    var c := Canonical(v);
    if c == None then None else Some(digest(c.value))
  }

  /** verify_execution_checksum; an absent checksum is not a pass. */
  predicate Verify(v: Value, stored: string, digest: Canon -> string) {
    stored != "" && Checksum(v, digest) == Some(stored)
  }

  /**
   An envelope stored in normal form and read back with its keys permuted at any depth still verifies
   against the checksum of the original, for every digest.
   */
  lemma ReadBackVerifies(envelope: Value, stored: Value, digest: Canon -> string)
    requires Normalize(envelope).Some? && Normal(stored) && Reordered(Normalize(envelope).value, stored)
    requires Checksum(envelope, digest) != Some("")
    ensures Verify(stored, Checksum(envelope, digest).value, digest)
  {
    NormalizeIsNormal(envelope);
    NormalIsFixed(stored);
    SameEncodingIffReordered(Normalize(envelope).value, stored);
  }

  /**
   With a digest that gives no other encoding the envelope's checksum, verification passes for nothing but
   a reordering of what was hashed.
   */
  lemma OnlyReorderingsVerify(envelope: Value, stored: Value, digest: Canon -> string)
    requires Normalize(envelope).Some? && Normal(stored)
    requires KeepsApart(digest, Canonical(envelope).value)
    requires Verify(stored, Checksum(envelope, digest).value, digest)
    ensures Reordered(Normalize(envelope).value, stored)
  {
    NormalizeIsNormal(envelope);
    NormalIsFixed(stored);
    SameEncodingIffReordered(Normalize(envelope).value, stored);
  }

  // ----- what JSONB does to numbers -----

  const SHORTEST_EXPONENT: real := 10000000000000000.0

  /**
   A float as JSONB gives it back. It keeps numbers as exact decimals and prints them without an exponent
   (section 8.14 of the PostgreSQL documentation): from 1e16 on, where a float's text has one and no
   fraction is left, what comes back is an integer, and the sign of a zero is lost.
   */
  function JsonbFloat(r: real): Value {
    if -SHORTEST_EXPONENT < r < SHORTEST_EXPONENT then Float(r) else Int(r.Floor)
  }

  /** A normal value as it is read back, up to the order of keys. */
  function Jsonb(v: Value): Value
    decreases v
  {
    match v
    case Float(r) => JsonbFloat(r)
    case NegativeZero => Float(0.0)
    case Dict(es) => Dict(seq(|es|, i requires 0 <= i < |es| => assert es[i].1 < es[i]; (es[i].0, Jsonb(es[i].1))))
    case List(xs) => List(seq(|xs|, i requires 0 <= i < |xs| => Jsonb(xs[i])))
    case _ => v
  }

  /** No number in v, however deep, is a negative zero or a float of magnitude 1e16 or more. */
  predicate Survives(v: Value)
    decreases v
  {
    match v
    case Float(r) => -SHORTEST_EXPONENT < r < SHORTEST_EXPONENT
    case NegativeZero => false
    case Dict(es) => forall i | 0 <= i < |es| :: Survives(es[i].1)
    case List(xs) => forall i | 0 <= i < |xs| :: Survives(xs[i])
    case _ => true
  }

  ghost predicate SameKeys(x: Entries, y: Entries) {
    |x| == |y| && forall i :: 0 <= i < |x| ==> x[i].0 == y[i].0
  }

  lemma {:induction false} FindBySameKeys(x: Entries, y: Entries, k: string)
    requires SameKeys(x, y)
    ensures Find(x, k) == Find(y, k)
  {
    if x != [] {
      FindBySameKeys(x[..|x| - 1], y[..|y| - 1], k);
    }
  }

  /** What is read back is normal, and a reordering of what was stored exactly if all its numbers survive. */
  lemma {:induction false} SurvivesIff(v: Value)
    requires Normal(v)
    ensures Normal(Jsonb(v)) && (Reordered(v, Jsonb(v)) <==> Survives(v))
    decreases v, 1
  {
    match v
    case Dict(es) => EntriesSurviveIff(es);
    case List(xs) => ItemsSurviveIff(xs);
    case _ =>
  }

  lemma {:induction false} EntriesSurviveIff(es: Entries)
    requires NormalEntries(es)
    ensures Normal(Jsonb(Dict(es))) && (Reordered(Dict(es), Jsonb(Dict(es))) <==> Survives(Dict(es)))
    decreases es, 0
  {
    var back := Jsonb(Dict(es)).entries;
    forall i | 0 <= i < |es|
      ensures back[i] == (es[i].0, Jsonb(es[i].1)) && Normal(back[i].1)
      ensures Reordered(es[i].1, back[i].1) <==> Survives(es[i].1)
    {
      assert es[i].1 < es[i];
      SurvivesIff(es[i].1);
    }
    EntriesReorderedIff(es, back);
  }

  /** Dictionaries with the same keys in the same order are reorderings of each other value by value. */
  lemma EntriesReorderedIff(x: Entries, y: Entries)
    requires StringKeyed(x) && SameKeys(x, y)
    ensures Reordered(Dict(x), Dict(y)) <==> forall i :: 0 <= i < |x| ==> Reordered(x[i].1, y[i].1)
  {
    forall k ensures Find(x, k) == Find(y, k) {
      FindBySameKeys(x, y, k);
    }
    forall i | 0 <= i < |x| ensures Has(x, x[i].0.text) && Find(x, x[i].0.text) == i {
      FoundAt(x, i);
    }
  }

  lemma FoundAt(x: Entries, i: nat)
    requires StringKeyed(x) && i < |x|
    ensures Find(x, x[i].0.text) == i
  {
    assert x[i].0 == StrKey(x[i].0.text);
  }

  lemma {:induction false} ItemsSurviveIff(xs: seq<Value>)
    requires forall i :: 0 <= i < |xs| ==> Normal(xs[i])
    ensures Normal(Jsonb(List(xs))) && (Reordered(List(xs), Jsonb(List(xs))) <==> Survives(List(xs)))
    decreases xs, 0
  {
    forall i | 0 <= i < |xs| ensures Normal(Jsonb(xs[i])) && (Reordered(xs[i], Jsonb(xs[i])) <==> Survives(xs[i])) {
      SurvivesIff(xs[i]);
    }
  }

  /** The digest gives no other encoding this one's checksum. */
  ghost predicate KeepsApart(digest: Canon -> string, c: Canon) {
    forall x :: digest(x) == digest(c) ==> x == c
  }

  /**
   An envelope stored and read back, its keys in any order at any depth, verifies if all its numbers survive,
   and, under a digest that keeps its encoding apart, only then.
   */
  lemma StoredVerifiesIff(envelope: Value, stored: Value, digest: Canon -> string)
    requires Normalize(envelope).Some? && Checksum(envelope, digest) != Some("")
    requires Normal(stored) && Reordered(Jsonb(Normalize(envelope).value), stored)
    ensures Survives(Normalize(envelope).value) ==> Verify(stored, Checksum(envelope, digest).value, digest)
    ensures KeepsApart(digest, Canonical(envelope).value) ==>
      (Verify(stored, Checksum(envelope, digest).value, digest) <==> Survives(Normalize(envelope).value))
  {
    var n := Normalize(envelope).value;
    NormalizeIsNormal(envelope);
    SurvivesIff(n);
    ReadBackEncodesIff(n, stored);
    VerifiesBySameDigest(envelope, stored, digest);
  }

  lemma VerifiesBySameDigest(envelope: Value, stored: Value, digest: Canon -> string)
    requires Normalize(envelope).Some? && Normal(Normalize(envelope).value) && Normal(stored)
    requires Checksum(envelope, digest) != Some("")
    ensures Canonical(envelope) == Some(Encode(Normalize(envelope).value))
    ensures Verify(stored, Checksum(envelope, digest).value, digest) <==>
      digest(Encode(stored)) == digest(Encode(Normalize(envelope).value))
  {
    NormalIsFixed(stored);
  }

  /** A normal value read back has its old encoding exactly if its numbers survive. */
  lemma ReadBackEncodesIff(n: Value, stored: Value)
    requires Normal(n) && Normal(stored) && Normal(Jsonb(n)) && Reordered(Jsonb(n), stored)
    ensures Encode(stored) == Encode(n) <==> Survives(n)
  {
    SurvivesIff(n);
    SameEncodingIffReordered(Jsonb(n), stored);
    SameEncodingIffReordered(n, Jsonb(n));
  }

  /** A response that shows a claimed value of 1e16 is read back as one that does not verify. */
  lemma LargeFloatDoesNotVerify(digest: Canon -> string)
    ensures var v := Dict([(StrKey("value"), Float(SHORTEST_EXPONENT))]);
      && Normalize(v) == Some(v) && Normal(Jsonb(v))
      && (KeepsApart(digest, Canonical(v).value) ==> !Verify(Jsonb(v), Checksum(v, digest).value, digest))
  {
    var v := Dict([(StrKey("value"), Float(SHORTEST_EXPONENT))]);
    assert Normal(v);
    NormalIsFixed(v);
    SurvivesIff(v);
    assert v.entries[0].1 == Float(SHORTEST_EXPONENT);
    assert !Survives(v);
    NormalIsFixed(Jsonb(v));
    SameEncodingIffReordered(v, Jsonb(v));
  }
}
