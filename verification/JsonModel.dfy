// JSON values in the representation jsoncpp keeps: both kinds of container are maps, an array from index to element
// (its size is one more than its largest index, an absent index reads as null), an object from name to value.
module JsonModel {

  datatype Option<+T> = None | Some(value: T)

  datatype Json =
    | Null
    | Int(i: int)
    | UInt(u: nat)
    | Real(r: real)
    | Str(s: string)
    | Bool(b: bool)
    | Arr(items: map<Member, Json>)
    | Obj(items: map<Member, Json>)

  // The key of either kind of container.
  datatype Member = Index(i: nat) | Name(s: string)

  predicate IsContainer(v: Json) {
    v.Arr? || v.Obj?
  }

  /** The children of a container under their keys; a scalar has none. */
  function Kids(v: Json): (kids: map<Member, Json>)
    ensures forall k | k in kids :: kids[k] < v
  {
    if IsContainer(v) then v.items else map[]
  }

  /** Arrays have indexes (of 32 bits, as their size) and objects names, at every level. */
  ghost predicate WellFormed(v: Json)
    decreases v
  {
    forall k | k in Kids(v) :: (if v.Arr? then k.Index? && k.i < 0xFFFF_FFFF else k.Name?) && WellFormed(Kids(v)[k])
  }

  /** The part of s before its first NUL character: what a C string function sees of s. */
  function CStr(s: string): (c: string)
    ensures c <= s
    ensures '\0' !in c
    ensures '\0' !in s ==> c == s
    ensures |c| < |s| ==> s[|c|] == '\0'
  {
    if s == "" || s[0] == '\0' then "" else [s[0]] + CStr(s[1..])
  }

  /** No member name anywhere in v contains a NUL character. */
  ghost predicate NulFreeNames(v: Json)
    decreases v
  {
    forall k | k in Kids(v) :: (k.Name? ==> '\0' !in k.s) && NulFreeNames(Kids(v)[k])
  }

  lemma KidFacts(v: Json, k: Member)
    requires k in Kids(v)
    ensures NulFreeNames(v) ==> NulFreeNames(Kids(v)[k])
    ensures WellFormed(v) ==> WellFormed(Kids(v)[k])
  {
  }

  /** The value at the end of a path of member keys, if the path leads anywhere. */
  function At(v: Json, path: seq<Member>): Option<Json>
    decreases |path|
  {
    if path == [] then Some(v)
    else if path[0] in Kids(v) then At(Kids(v)[path[0]], path[1..])
    else None
  }

  lemma AtKid(v: Json, k: Member, path: seq<Member>)
    requires k in Kids(v)
    ensures At(v, [k] + path) == At(Kids(v)[k], path)
  {
    assert ([k] + path)[1..] == path;
  }

  ghost predicate IsMaxIn<K>(m: map<K, nat>, dom: set<K>, r: nat)
    requires dom <= m.Keys
  {
    && (forall k | k in dom :: m[k] <= r)
    && (if dom == {} then r == 0 else exists k :: k in dom && m[k] == r)
  }

  lemma {:induction false} MaxInExists<K>(m: map<K, nat>, dom: set<K>) returns (r: nat)
    requires dom <= m.Keys
    ensures IsMaxIn(m, dom, r)
  {
    if dom == {} {
      r := 0;
    } else {
      var k :| k in dom;
      var rest := MaxInExists(m, dom - {k});
      r := if m[k] >= rest then m[k] else rest;
    }
  }

  /** The largest value m has on dom, 0 when dom is empty. */
  ghost function MaxIn<K>(m: map<K, nat>, dom: set<K>): (r: nat)
    requires dom <= m.Keys
    ensures IsMaxIn(m, dom, r)
  {
    assert exists r :: IsMaxIn(m, dom, r) by {
      var r := MaxInExists(m, dom);
    }
    var r :| IsMaxIn(m, dom, r);
    r
  }

  lemma MaxInAdd<K>(m: map<K, nat>, dom: set<K>, k: K)
    requires dom <= m.Keys && k in m
    ensures MaxIn(m, dom + {k}) == if m[k] > MaxIn(m, dom) then m[k] else MaxIn(m, dom)
  {
    assert k in dom + {k};
  }
}
