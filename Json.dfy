/** A parsed JSON document and the three Python operations the webhook
    applies to it: `d.get(key, default)`, `d[key]` and `for x in v`.
    Each either yields a value or raises, which is `Err` here. */
module Json {
  import opened Wrappers

  /** A value as `json.loads` produces it. An object keeps its members in
      document order; numbers are kept as integers: the webhook compares
      them with strings and, when `from` is a number, passes it on as a
      reply's recipient (whatsapp_webhook/main.py:69,83). */
  datatype Json =
    | JNull
    | JBool(b: bool)
    | JNum(n: int)
    | JStr(s: string)
    | JArr(items: seq<Json>)
    | JObj(fields: seq<(string, Json)>)

  /** The value bound to `key` in an object's members; with duplicate
      keys the last binding wins, as in `json.loads`. */
  function Lookup(fields: seq<(string, Json)>, key: string): Option<Json> {
    if fields == [] then None
    else if fields[|fields| - 1].0 == key then Some(fields[|fields| - 1].1)
    else Lookup(fields[..|fields| - 1], key)
  }

  /** A key is found exactly when some member has it, and then its value is
      that of the last member with the key. */
  lemma {:induction false} LookupFindsLast(fields: seq<(string, Json)>, key: string)
    ensures Lookup(fields, key).None? <==> forall i :: 0 <= i < |fields| ==> fields[i].0 != key
    ensures Lookup(fields, key).Some? ==>
      exists i :: 0 <= i < |fields| && fields[i] == (key, Lookup(fields, key).value)
                  && forall j :: i < j < |fields| ==> fields[j].0 != key
  {
    if fields != [] {
      var init := fields[..|fields| - 1];
      LookupFindsLast(init, key);
      if fields[|fields| - 1].0 != key && Lookup(init, key).Some? {
        var i :| 0 <= i < |init| && init[i] == (key, Lookup(init, key).value)
                 && forall j :: i < j < |init| ==> init[j].0 != key;
        assert fields[i] == (key, Lookup(fields, key).value);
      }
    }
  }

  /** Looking up in `a + b`: a binding in `b` wins, and otherwise `a` decides. */
  lemma {:induction false} LookupAppend(a: seq<(string, Json)>, b: seq<(string, Json)>, key: string)
    ensures Lookup(a + b, key) == if Lookup(b, key).Some? then Lookup(b, key) else Lookup(a, key)
  {
    if b == [] {
      assert a + b == a;
    } else {
      assert (a + b)[..|a + b| - 1] == a + b[..|b| - 1];
      LookupAppend(a, b[..|b| - 1], key);
    }
  }

  /** A binding of another key, wherever it stands, does not change what a key finds. */
  lemma LookupOtherKey(a: seq<(string, Json)>, k: string, v: Json, b: seq<(string, Json)>, key: string)
    requires k != key
    ensures Lookup(a + [(k, v)] + b, key) == Lookup(a + b, key)
  {
    LookupAppend(a + [(k, v)], b, key);
    LookupAppend(a, [(k, v)], key);
    LookupAppend(a, b, key);
    assert [(k, v)][..0] == [];
  }

  /** A key bound by exactly one member finds that member's value. */
  lemma LookupSole(fields: seq<(string, Json)>, i: int, key: string)
    requires 0 <= i < |fields| && fields[i].0 == key
    requires forall j :: 0 <= j < |fields| && j != i ==> fields[j].0 != key
    ensures Lookup(fields, key) == Some(fields[i].1)
  {
    LookupFindsLast(fields, key);
  }

  /** `v.get(key, default)`: only a dict has `.get`; a missing key gives the default. */
  function GetOr(v: Json, key: string, default: Json): (r: Result<Json>)
    ensures r.Err? <==> !v.JObj?
    ensures v.JObj? && Lookup(v.fields, key).None? ==> r == Ok(default)
    ensures v.JObj? && Lookup(v.fields, key).Some? ==> r == Ok(Lookup(v.fields, key).value)
  {
    match v
    case JObj(fields) =>
      (match Lookup(fields, key)
       case Some(x) => Ok(x)
       case None => Ok(default))
    case _ => Err
  }

  /** `v[key]` with a string key: a dict that has the key; anything else raises
      (`KeyError` for a dict without it, `TypeError` otherwise). */
  function Index(v: Json, key: string): (r: Result<Json>)
    ensures r.Ok? <==> v.JObj? && Lookup(v.fields, key).Some?
    ensures r.Ok? ==> r.value == Lookup(v.fields, key).value
  {
    if v.JObj? && Lookup(v.fields, key).Some? then Ok(Lookup(v.fields, key).value) else Err
  }

  /** Some member of the object has key `k`. */
  predicate HasKey(fields: seq<(string, Json)>, k: string) {
    exists i :: 0 <= i < |fields| && fields[i].0 == k
  }

  /** The keys of an object, each in the place where it first occurs: what
      iterating over the dict `json.loads` builds yields. Every key of a
      member appears exactly once. */
  function Keys(fields: seq<(string, Json)>): (r: seq<string>)
    ensures |r| <= |fields|
    ensures r == [] <==> fields == []
    ensures forall k :: k in r <==> HasKey(fields, k)
    ensures forall i, j :: 0 <= i < j < |r| ==> r[i] != r[j]
  {
    if fields == [] then []
    else
      var init := fields[..|fields| - 1];
      var ks := Keys(init);
      var k := fields[|fields| - 1].0;
      assert forall k' :: HasKey(fields, k') <==> HasKey(init, k') || k' == k by {
        forall k' | HasKey(fields, k') ensures HasKey(init, k') || k' == k {
          var i :| 0 <= i < |fields| && fields[i].0 == k';
          if i < |init| {
            assert init[i].0 == k';
          }
        }
        forall k' | HasKey(init, k') ensures HasKey(fields, k') {
          var i :| 0 <= i < |init| && init[i].0 == k';
          assert fields[i].0 == k';
        }
      }
      if k in ks then ks else ks + [k]
  }

  /** The elements `for x in v` visits: a list's items, a dict's keys, a
      string's characters (each a one-character string). Anything else is
      not iterable. */
  function Iterate(v: Json): (r: Result<seq<Json>>)
    ensures r.Err? <==> !(v.JArr? || v.JObj? || v.JStr?)
    ensures v.JArr? ==> r == Ok(v.items)
    ensures v.JObj? ==> r.Ok? && |r.value| <= |v.fields| && (r.value == [] <==> v.fields == [])
                        && forall i :: 0 <= i < |r.value| ==> r.value[i].JStr?
    ensures v.JStr? ==> r.Ok? && |r.value| == |v.s|
                        && forall i :: 0 <= i < |v.s| ==> r.value[i] == JStr([v.s[i]])
  {
    match v
    case JArr(items) => Ok(items)
    case JObj(fields) =>
      var ks := Keys(fields);
      Ok(seq(|ks|, i requires 0 <= i < |ks| => JStr(ks[i])))
    case JStr(s) => Ok(seq(|s|, i requires 0 <= i < |s| => JStr([s[i]])))
    case _ => Err
  }

  /** Iterating over a dict visits one string per distinct key of its
      members: every key is visited, and none twice. */
  lemma IterateDict(v: Json)
    requires v.JObj?
    ensures Iterate(v).Ok?
    ensures forall k :: JStr(k) in Iterate(v).value <==> HasKey(v.fields, k)
    ensures forall i, j :: 0 <= i < j < |Iterate(v).value| ==> Iterate(v).value[i] != Iterate(v).value[j]
  {
    var ks := Keys(v.fields);
    var xs := Iterate(v).value;
    assert |xs| == |ks| && forall i :: 0 <= i < |ks| ==> xs[i] == JStr(ks[i]);
    forall k ensures JStr(k) in xs <==> k in ks {
      if JStr(k) in xs {
        var i :| 0 <= i < |xs| && xs[i] == JStr(k);
        assert ks[i] == k;
      }
      if k in ks {
        var i :| 0 <= i < |ks| && ks[i] == k;
        assert xs[i] == JStr(k);
      }
    }
  }
}
