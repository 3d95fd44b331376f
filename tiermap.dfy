/** A JavaScript object from string keys to string values, as the tier
    pointers of one (job, armor type) pair are stored. Keys keep insertion
    order, which `Object.keys` and `Object.entries` expose: assigning an
    existing key keeps its position, assigning a new key appends it, and
    `delete` drops it. */
module TierMap {
  import opened JsValues

  type Entries = seq<(string, string)>

  /** The keys of a JavaScript object are distinct. */
  ghost predicate UniqueKeys(e: Entries)
  {
    forall i, j :: 0 <= i < j < |e| ==> e[i].0 != e[j].0
  }

  function Keys(e: Entries): (ks: seq<string>)
    ensures |ks| == |e|
    ensures forall i :: 0 <= i < |e| ==> ks[i] == e[i].0
  {
    if e == [] then [] else [e[0].0] + Keys(e[1..])
  }

  /** `obj[k]`: the value under key k, if any. */
  function Get(e: Entries, k: string): (r: Option<string>)
    ensures r.None? <==> k !in Keys(e)
    ensures r.Some? ==> (k, r.value) in e
  {
    if e == [] then None
    else if e[0].0 == k then Some(e[0].1)
    else Get(e[1..], k)
  }

  /** `Object.keys(obj).find(key => obj[key] === v)`: the first key, in
      insertion order, whose value is v. */
  function FindKeyWithValue(e: Entries, v: string): (r: Option<string>)
    ensures r.Some? ==> exists i :: 0 <= i < |e| && e[i] == (r.value, v)
                                   && forall j :: 0 <= j < i ==> e[j].1 != v
    ensures r.None? ==> forall i :: 0 <= i < |e| ==> e[i].1 != v
  {
    if e == [] then None
    else if e[0].1 == v then Some(e[0].0)
    else
      var r := FindKeyWithValue(e[1..], v);
      assert r.Some? ==> exists i :: 0 <= i < |e| && e[i] == (r.value, v)
                                    && forall j :: 0 <= j < i ==> e[j].1 != v by {
        if r.Some? {
          var i :| 0 <= i < |e| - 1 && e[1..][i] == (r.value, v)
                   && forall j :: 0 <= j < i ==> e[1..][j].1 != v;
          assert e[i + 1] == (r.value, v);
          forall j | 0 <= j < i + 1 ensures e[j].1 != v {
            if j > 0 { assert e[j] == e[1..][j - 1]; }
          }
        }
      }
      r
  }

  /** `{ ...obj, [k]: v }`. */
  function Set(e: Entries, k: string, v: string): (r: Entries)
    ensures Get(r, k) == Some(v)
    ensures forall k' :: k' != k ==> Get(r, k') == Get(e, k')
  {
    if e == [] then [(k, v)]
    else if e[0].0 == k then [(k, v)] + e[1..]
    else [e[0]] + Set(e[1..], k, v)
  }

  /** Adding at the front and at the back commute. */
  lemma ConsSnoc(a: string, b: seq<string>, c: string)
    ensures [a] + (b + [c]) == ([a] + b) + [c]
  {
  }

  /** Assigning an existing key keeps every key where it was; a new key
      goes last. */
  lemma {:induction false} SetKeys(e: Entries, k: string, v: string)
    ensures Keys(Set(e, k, v)) == if k in Keys(e) then Keys(e) else Keys(e) + [k]
  {
    if e != [] {
      var s, ks := Set(e, k, v), Keys(e[1..]);
      assert Keys(e) == [e[0].0] + ks;
      assert s[1..] == (if e[0].0 == k then e[1..] else Set(e[1..], k, v));
      assert Keys(s) == [s[0].0] + Keys(s[1..]);
      if e[0].0 != k {
        SetKeys(e[1..], k, v);
        assert k in Keys(e) <==> k in ks;
        if k !in ks {
          ConsSnoc(e[0].0, ks, k);
        }
      }
    }
  }

  /** Assigning a key keeps the keys distinct. */
  lemma SetUnique(e: Entries, k: string, v: string)
    requires UniqueKeys(e)
    ensures UniqueKeys(Set(e, k, v))
  {
    var r := Set(e, k, v);
    SetKeys(e, k, v);
    forall i, j | 0 <= i < j < |r| ensures r[i].0 != r[j].0 {
      assert Keys(r)[i] == r[i].0 && Keys(r)[j] == r[j].0;
      if k !in Keys(e) && j == |e| {
        assert Keys(e)[i] == r[i].0;
      } else {
        assert Keys(e)[i] == r[i].0 && Keys(e)[j] == r[j].0;
      }
    }
  }

  /** `const copy = { ...obj }; delete copy[k]`. */
  function Remove(e: Entries, k: string): (r: Entries)
    ensures Get(r, k) == None
    ensures forall k' :: k' != k ==> Get(r, k') == Get(e, k')
    ensures forall x :: x in Keys(r) <==> x in Keys(e) && x != k
    ensures UniqueKeys(e) ==> UniqueKeys(r)
    ensures |r| <= |e|
  {
    if e == [] then []
    else if e[0].0 == k then Remove(e[1..], k)
    else
      var t := Remove(e[1..], k);
      var r := [e[0]] + t;
      assert Keys(r) == [e[0].0] + Keys(t);
      assert UniqueKeys(e) ==> UniqueKeys(r) by {
        if UniqueKeys(e) {
          assert UniqueKeys(e[1..]);
          assert e[0].0 !in Keys(e[1..]);
          assert e[0].0 !in Keys(t);
        }
      }
      r
  }

  /** Entry i is the first, in insertion order, whose value is v. */
  predicate FirstWithValue(e: Entries, i: int, v: string)
  {
    0 <= i < |e| && e[i].1 == v && forall j :: 0 <= j < i ==> e[j].1 != v
  }

  /** The base item behind an item name, as `completeUpgrade` resolves it:
      the first key, in insertion order, whose value is the name (the base
      whose pointer names it); the name itself when no pointer names it, or
      when that first key is the falsy `''`. */
  function ResolveBase(e: Entries, itemName: string): (base: string)
    ensures base != itemName ==>
      base != "" && exists i :: 0 <= i < |e| && e[i] == (base, itemName)
                                && forall j :: 0 <= j < i ==> e[j].1 != itemName
    ensures forall i :: FirstWithValue(e, i, itemName) && e[i].0 != "" ==> base == e[i].0
    ensures (forall i :: 0 <= i < |e| ==> e[i].1 != itemName) ==> base == itemName
  {
    match FindKeyWithValue(e, itemName)
    case Some(k) =>
      assert forall i :: FirstWithValue(e, i, itemName) ==> e[i].0 == k by {
        var i0 :| 0 <= i0 < |e| && e[i0] == (k, itemName)
                  && forall j :: 0 <= j < i0 ==> e[j].1 != itemName;
        forall i | FirstWithValue(e, i, itemName) ensures e[i].0 == k
        {
          assert !(i < i0) && !(i0 < i);
        }
      }
      if k != "" then k else itemName
    case None => itemName
  }

  /** With distinct keys, a resolved base other than the name itself holds a
      pointer to that name. */
  lemma ResolvedBasePointsToName(e: Entries, itemName: string)
    requires UniqueKeys(e)
    ensures var base := ResolveBase(e, itemName);
            base == itemName || Get(e, base) == Some(itemName)
  {
    var base := ResolveBase(e, itemName);
    if base != itemName {
      var i :| 0 <= i < |e| && e[i] == (base, itemName);
      GetUnique(e, i);
    }
  }

  /** In an object with distinct keys, looking up the key of the i-th entry
      finds that entry. */
  lemma {:induction false} GetUnique(e: Entries, i: int)
    requires UniqueKeys(e)
    requires 0 <= i < |e|
    ensures Get(e, e[i].0) == Some(e[i].1)
  {
    if i > 0 {
      assert e[0].0 != e[i].0;
      assert UniqueKeys(e[1..]);
      GetUnique(e[1..], i - 1);
    }
  }

  /** Assigning to an existing key keeps every key where it was; a new key
      goes last, after every key already present. */
  lemma SetKeepsOrder(e: Entries, k: string, v: string, i: int)
    requires 0 <= i < |e|
    ensures |Set(e, k, v)| >= |e| && Set(e, k, v)[i].0 == e[i].0
  {
    SetKeys(e, k, v);
    assert Keys(Set(e, k, v))[i] == Keys(e)[i];
  }
}
