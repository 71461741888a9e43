/**
  The Remember The Milk REST client: request signing, request URLs, calls with
  the HTTP status and the `stat` check, dotted method names, and navigation of
  parsed responses through the path-keyed collection table.
*/
module RtmApi {
  import opened Wrappers
  import opened Strings

  const AuthUrl := "http://api.rememberthemilk.com/services/auth/"
  const BaseUrl := "http://api.rememberthemilk.com/services/rest/"

  /**
    The foreign primitives the client uses: the hex MD5 digest of the UTF-8
    encoding of a string, and `urllib.quote_plus` of the UTF-8 encoding.
  */
  datatype Primitives = Primitives(md5Hex: string -> string, quotePlus: string -> string)

  // ---------------------------------------------------------------------------
  // Keyword parameters (a Python dict, in its iteration order)
  // ---------------------------------------------------------------------------

  /** One keyword argument; a Python `None` value is `None`. */
  datatype Param = Param(key: string, value: Option<string>)

  function Keys(ps: seq<Param>): set<string>
  {
    set p | p in ps :: p.key
  }

  /** No key occurs twice, as in a dict. */
  predicate DistinctKeys(ps: seq<Param>)
  {
    |ps| == 0 || (ps[0].key !in Keys(ps[1..]) && DistinctKeys(ps[1..]))
  }

  /** Dict lookup: `None` when the key is missing, else `Some(value)`. */
  function ValueOf(ps: seq<Param>, k: string): (r: Option<Option<string>>)
    ensures r.Some? <==> k in Keys(ps)
    ensures r.Some? ==> Param(k, r.value) in ps
  {
    if |ps| == 0 then None
    else if ps[0].key == k then Some(ps[0].value)
    else
      assert Keys(ps) == {ps[0].key} + Keys(ps[1..]);
      ValueOf(ps[1..], k)
  }

  lemma KeysCons(p: Param, ps: seq<Param>)
    ensures Keys([p] + ps) == {p.key} + Keys(ps)
  {
    assert forall q :: q in [p] + ps <==> q == p || q in ps;
  }

  /** `d[p.key] = p.value`: an existing key keeps its place, a new one goes last. */
  function Assign(ps: seq<Param>, p: Param): seq<Param>
  {
    if |ps| == 0 then [p]
    else if ps[0].key == p.key then [p] + ps[1..]
    else [ps[0]] + Assign(ps[1..], p)
  }

  /** `base.update(extra)`. */
  function Update(base: seq<Param>, extra: seq<Param>): seq<Param>
    decreases |extra|
  {
    if |extra| == 0 then base else Update(Assign(base, extra[0]), extra[1..])
  }

  lemma {:induction false} AssignValue(ps: seq<Param>, p: Param, k: string)
    ensures ValueOf(Assign(ps, p), k) == if k == p.key then Some(p.value) else ValueOf(ps, k)
  {
    if |ps| > 0 && ps[0].key != p.key {
      AssignValue(ps[1..], p, k);
    }
  }

  lemma {:induction false} AssignKeys(ps: seq<Param>, p: Param)
    ensures Keys(Assign(ps, p)) == Keys(ps) + {p.key}
    ensures DistinctKeys(ps) ==> DistinctKeys(Assign(ps, p))
  {
    if |ps| == 0 {
      KeysCons(p, []);
    } else if ps[0].key == p.key {
      KeysCons(p, ps[1..]);
      KeysCons(ps[0], ps[1..]);
      assert ps == [ps[0]] + ps[1..];
    } else {
      AssignKeys(ps[1..], p);
      KeysCons(ps[0], Assign(ps[1..], p));
      KeysCons(ps[0], ps[1..]);
      assert ps == [ps[0]] + ps[1..];
      assert ([ps[0]] + Assign(ps[1..], p))[1..] == Assign(ps[1..], p);
    }
  }

  /** After `base.update(extra)`, a key of `extra` has its value from `extra`; any other key keeps its value in `base`. */
  lemma {:induction false} UpdateValue(base: seq<Param>, extra: seq<Param>, k: string)
    requires DistinctKeys(extra)
    ensures ValueOf(Update(base, extra), k) ==
            if k in Keys(extra) then ValueOf(extra, k) else ValueOf(base, k)
    decreases |extra|
  {
    if |extra| > 0 {
      var b' := Assign(base, extra[0]);
      UpdateValue(b', extra[1..], k);
      AssignValue(base, extra[0], k);
      KeysCons(extra[0], extra[1..]);
      assert extra == [extra[0]] + extra[1..];
    }
  }

  /** A dict stays a dict under `update`. */
  lemma {:induction false} UpdateDistinct(base: seq<Param>, extra: seq<Param>)
    requires DistinctKeys(base)
    ensures DistinctKeys(Update(base, extra))
    decreases |extra|
  {
    if |extra| > 0 {
      AssignKeys(base, extra[0]);
      UpdateDistinct(Assign(base, extra[0]), extra[1..]);
    }
  }

  // ---------------------------------------------------------------------------
  // Sorting by key (the `param_pairs.sort()` of the signing step)
  // ---------------------------------------------------------------------------

  predicate KeyLess(a: Param, b: Param)
  {
    LessEq(a.key, b.key) && a.key != b.key
  }

  /** Strictly increasing keys. */
  predicate SortedByKey(ps: seq<Param>)
  {
    forall i, j :: 0 <= i < j < |ps| ==> KeyLess(ps[i], ps[j])
  }

  function Insert(p: Param, s: seq<Param>): (r: seq<Param>)
    ensures multiset(r) == multiset(s) + multiset{p}
  {
    if |s| == 0 then [p]
    else if LessEq(p.key, s[0].key) then [p] + s
    else
      assert s == [s[0]] + s[1..];
      [s[0]] + Insert(p, s[1..])
  }

  /** The parameters sorted by key; a permutation of the input. */
  function SortByKey(ps: seq<Param>): (r: seq<Param>)
    ensures multiset(r) == multiset(ps)
  {
    if |ps| == 0 then []
    else
      assert ps == [ps[0]] + ps[1..];
      Insert(ps[0], SortByKey(ps[1..]))
  }

  lemma KeysOfPermutation(a: seq<Param>, b: seq<Param>)
    requires multiset(a) == multiset(b)
    ensures Keys(a) == Keys(b)
  {
    assert forall p :: p in a <==> p in multiset(a);
    assert forall p :: p in b <==> p in multiset(b);
  }

  /** A parameter below every element of a sorted sequence can go in front. */
  lemma SortedCons(x: Param, t: seq<Param>)
    requires SortedByKey(t) && forall j :: 0 <= j < |t| ==> KeyLess(x, t[j])
    ensures SortedByKey([x] + t)
  {
    var r := [x] + t;
    forall i, j | 0 <= i < j < |r|
      ensures KeyLess(r[i], r[j])
    {
      assert r[j] == t[j - 1];
      if i > 0 {
        assert r[i] == t[i - 1];
      }
    }
  }

  /** A parameter below `p` and below every element of `s` is below every element of `Insert(p, s)`. */
  lemma InsertKeepsLower(x: Param, p: Param, s: seq<Param>)
    requires KeyLess(x, p) && forall j :: 0 <= j < |s| ==> KeyLess(x, s[j])
    ensures forall j :: 0 <= j < |Insert(p, s)| ==> KeyLess(x, Insert(p, s)[j])
  {
    var t := Insert(p, s);
    forall j | 0 <= j < |t|
      ensures KeyLess(x, t[j])
    {
      assert t[j] in multiset(t);
      if t[j] != p {
        assert t[j] in s;
        var k :| 0 <= k < |s| && s[k] == t[j];
      }
    }
  }

  lemma {:induction false} InsertSorted(p: Param, s: seq<Param>)
    requires SortedByKey(s) && p.key !in Keys(s)
    ensures SortedByKey(Insert(p, s))
  {
    if |s| == 0 {
    } else if LessEq(p.key, s[0].key) {
      forall j | 0 <= j < |s|
        ensures KeyLess(p, s[j])
      {
        assert s[j] in s;
        if j > 0 {
          LessEqTrans(p.key, s[0].key, s[j].key);
        }
      }
      SortedCons(p, s);
    } else {
      LessEqTotal(p.key, s[0].key);
      assert s[0] in s;
      assert Keys(s[1..]) <= Keys(s) by {
        assert forall q :: q in s[1..] ==> q in s;
      }
      assert SortedByKey(s[1..]) by {
        forall i, j | 0 <= i < j < |s[1..]|
          ensures KeyLess(s[1..][i], s[1..][j])
        {
          assert s[1..][i] == s[i + 1] && s[1..][j] == s[j + 1];
        }
      }
      InsertSorted(p, s[1..]);
      forall j | 0 <= j < |s[1..]|
        ensures KeyLess(s[0], s[1..][j])
      {
        assert s[1..][j] == s[j + 1];
      }
      InsertKeepsLower(s[0], p, s[1..]);
      SortedCons(s[0], Insert(p, s[1..]));
    }
  }

  /** Sorting a dict's items gives strictly increasing keys. */
  lemma {:induction false} SortSorted(ps: seq<Param>)
    requires DistinctKeys(ps)
    ensures SortedByKey(SortByKey(ps))
  {
    if |ps| > 0 {
      SortSorted(ps[1..]);
      KeysOfPermutation(SortByKey(ps[1..]), ps[1..]);
      InsertSorted(ps[0], SortByKey(ps[1..]));
    }
  }

  /** Two key-sorted sequences with the same elements are the same sequence. */
  lemma {:induction false} SortedUnique(a: seq<Param>, b: seq<Param>)
    requires SortedByKey(a) && SortedByKey(b) && multiset(a) == multiset(b)
    ensures a == b
  {
    if |a| == 0 {
      assert |b| == |multiset(b)| == 0;
    } else {
      SameLeast(a, b);
      SortedTail(a);
      SortedTail(b);
      TailMultiset(a);
      TailMultiset(b);
      SortedUnique(a[1..], b[1..]);
      assert a == [a[0]] + a[1..];
      assert b == [b[0]] + b[1..];
    }
  }

  /** Two key-sorted sequences with the same elements start with the same element. */
  lemma SameLeast(a: seq<Param>, b: seq<Param>)
    requires SortedByKey(a) && SortedByKey(b) && multiset(a) == multiset(b) && |a| > 0
    ensures |b| > 0 && a[0] == b[0]
  {
    assert a[0] in multiset(b);
    var j :| 0 <= j < |b| && b[j] == a[0];
    assert b[0] in multiset(a);
    var i :| 0 <= i < |a| && a[i] == b[0];
    if i > 0 && j > 0 {
      assert KeyLess(a[0], a[i]);
      assert KeyLess(b[0], b[j]);
      LessEqAntisym(a[0].key, b[0].key);
      assert false;
    }
  }

  /** The tail of a key-sorted sequence is key-sorted. */
  lemma SortedTail(a: seq<Param>)
    requires SortedByKey(a) && |a| > 0
    ensures SortedByKey(a[1..])
  {
    forall i, j | 0 <= i < j < |a[1..]|
      ensures KeyLess(a[1..][i], a[1..][j])
    {
      assert a[1..][i] == a[i + 1] && a[1..][j] == a[j + 1];
    }
  }

  /** The tail holds every element but the first. */
  lemma TailMultiset(a: seq<Param>)
    requires |a| > 0
    ensures multiset(a[1..]) == multiset(a) - multiset{a[0]}
  {
    assert a == [a[0]] + a[1..];
  }

  // ---------------------------------------------------------------------------
  // Signing (src/rtmapi/__init__.py:110-116)
  // ---------------------------------------------------------------------------

  /** `k + v` for each pair in order, skipping pairs whose value is `None`. */
  function PairsText(ps: seq<Param>): string
  {
    if |ps| == 0 then ""
    else
      (match ps[0].value
       case None => ""
       case Some(v) => ps[0].key + v) + PairsText(ps[1..])
  }

  /** The string whose MD5 digest is the request signature. */
  function SignaturePreImage(secret: string, ps: seq<Param>): string
  {
    secret + PairsText(SortByKey(ps))
  }

  /** `_sign_request`: the hex MD5 of the pre-image. */
  function Sign(prims: Primitives, secret: string, ps: seq<Param>): string
  {
    prims.md5Hex(SignaturePreImage(secret, ps))
  }

  /** The pre-image of a dict already in key order is the secret followed by its pairs. */
  lemma PreImageOfSorted(secret: string, ps: seq<Param>)
    requires SortedByKey(ps)
    ensures SignaturePreImage(secret, ps) == secret + PairsText(ps)
  {
    KeysOfSorted(ps);
    SortSorted(ps);
    SortedUnique(SortByKey(ps), ps);
  }

  lemma {:induction false} KeysOfSorted(ps: seq<Param>)
    requires SortedByKey(ps)
    ensures DistinctKeys(ps)
  {
    if |ps| > 0 {
      assert SortedByKey(ps[1..]) by {
        forall i, j | 0 <= i < j < |ps[1..]| ensures KeyLess(ps[1..][i], ps[1..][j]) {
          assert ps[1..][i] == ps[i + 1] && ps[1..][j] == ps[j + 1];
        }
      }
      KeysOfSorted(ps[1..]);
    }
  }

  /** The signature does not depend on the order of the parameters. */
  lemma SignatureOrderIndependent(secret: string, a: seq<Param>, b: seq<Param>)
    requires DistinctKeys(a) && DistinctKeys(b) && multiset(a) == multiset(b)
    ensures SignaturePreImage(secret, a) == SignaturePreImage(secret, b)
  {
    SortSorted(a);
    SortSorted(b);
    SortedUnique(SortByKey(a), SortByKey(b));
  }

  lemma {:induction false} InsertNoneText(p: Param, s: seq<Param>)
    requires p.value.None?
    ensures PairsText(Insert(p, s)) == PairsText(s)
  {
    if |s| > 0 && !LessEq(p.key, s[0].key) {
      InsertNoneText(p, s[1..]);
      assert ([s[0]] + Insert(p, s[1..]))[1..] == Insert(p, s[1..]);
    }
  }

  /** Adding a new parameter whose value is `None` leaves the signature unchanged. */
  lemma SignatureIgnoresNone(secret: string, ps: seq<Param>, k: string)
    requires DistinctKeys(ps) && k !in Keys(ps)
    ensures SignaturePreImage(secret, ps + [Param(k, None)]) == SignaturePreImage(secret, ps)
  {
    var x := Param(k, None);
    var front := [x] + ps;
    assert front[1..] == ps;
    assert DistinctKeys(front);
    KeysCons(x, ps);
    assert multiset(ps + [x]) == multiset(front);
    assert Keys(ps + [x]) == Keys(front) by {
      KeysOfPermutation(ps + [x], front);
    }
    assert DistinctKeys(ps + [x]) by {
      SnocDistinct(ps, x);
    }
    SignatureOrderIndependent(secret, ps + [x], front);
    InsertNoneText(x, SortByKey(ps));
  }

  lemma {:induction false} SnocDistinct(ps: seq<Param>, x: Param)
    requires DistinctKeys(ps) && x.key !in Keys(ps)
    ensures DistinctKeys(ps + [x])
  {
    if |ps| > 0 {
      assert (ps + [x])[1..] == ps[1..] + [x];
      assert Keys(ps[1..]) <= Keys(ps) by {
        assert forall q :: q in ps[1..] ==> q in ps;
      }
      assert ps[0] in ps;
      SnocDistinct(ps[1..], x);
      assert Keys(ps[1..] + [x]) == Keys(ps[1..]) + {x.key} by {
        assert forall q :: q in ps[1..] + [x] <==> q in ps[1..] || q == x;
      }
    }
  }

  // ---------------------------------------------------------------------------
  // Request URLs (src/rtmapi/__init__.py:102-108)
  // ---------------------------------------------------------------------------

  /** `quote(k) + "=" + quote(v)` for one parameter that has a value. */
  function QueryItem(prims: Primitives, p: Param): string
    requires p.value.Some?
  {
    prims.quotePlus(p.key) + "=" + prims.quotePlus(p.value.value)
  }

  /** The query items, in parameter order, of the parameters whose value is not `None`. */
  function QueryItems(prims: Primitives, ps: seq<Param>): (r: seq<string>)
    ensures |r| <= |ps|
  {
    if |ps| == 0 then []
    else
      var rest := QueryItems(prims, ps[1..]);
      if ps[0].value.None? then rest else [QueryItem(prims, ps[0])] + rest
  }

  /** Every parameter with a value has its item in the query, and every item comes from such a parameter. */
  lemma {:induction false} QueryItemsExact(prims: Primitives, ps: seq<Param>)
    ensures forall p :: p in ps && p.value.Some? ==> QueryItem(prims, p) in QueryItems(prims, ps)
    ensures forall x :: x in QueryItems(prims, ps) ==> exists p :: p in ps && p.value.Some? && x == QueryItem(prims, p)
  {
    if |ps| > 0 {
      QueryItemsExact(prims, ps[1..]);
      assert forall p :: p in ps <==> p == ps[0] || p in ps[1..];
      forall x | x in QueryItems(prims, ps)
        ensures exists p :: p in ps && p.value.Some? && x == QueryItem(prims, p)
      {
        if x !in QueryItems(prims, ps[1..]) {
          assert ps[0] in ps && x == QueryItem(prims, ps[0]);
        }
      }
    }
  }

  /** No item of the query holds `&` when quoting never yields one. */
  lemma {:induction false} QueryItemsNoAmp(prims: Primitives, ps: seq<Param>)
    requires forall s :: '&' !in prims.quotePlus(s)
    ensures forall i :: 0 <= i < |QueryItems(prims, ps)| ==> '&' !in QueryItems(prims, ps)[i]
  {
    if |ps| > 0 {
      QueryItemsNoAmp(prims, ps[1..]);
      if ps[0].value.Some? {
        var x := QueryItem(prims, ps[0]);
        assert '&' !in prims.quotePlus(ps[0].key) && '&' !in prims.quotePlus(ps[0].value.value);
        assert x == prims.quotePlus(ps[0].key) + "=" + prims.quotePlus(ps[0].value.value);
        assert '&' !in x;
      }
    }
  }

  lemma {:induction false} QueryItemsAppend(prims: Primitives, a: seq<Param>, b: seq<Param>)
    ensures QueryItems(prims, a + b) == QueryItems(prims, a) + QueryItems(prims, b)
  {
    if |a| == 0 {
      assert a + b == b;
    } else {
      assert (a + b)[0] == a[0];
      assert (a + b)[1..] == a[1..] + b;
      QueryItemsAppend(prims, a[1..], b);
    }
  }

  /** `request_url or base_url`: a missing or empty URL falls back to the REST endpoint. */
  function UrlBase(requestUrl: Option<string>): string
  {
    if requestUrl.Some? && requestUrl.value != "" then requestUrl.value else BaseUrl
  }

  /** The parameters as sent: the caller's, in order, then `api_sig` over the unsigned ones. */
  function SignedParams(prims: Primitives, secret: string, ps: seq<Param>): seq<Param>
  {
    ps + [Param("api_sig", Some(Sign(prims, secret, ps)))]
  }

  /** The query string: the `k=v` items of the signed parameters joined by `&`. */
  function Query(prims: Primitives, secret: string, ps: seq<Param>): string
  {
    Join(QueryItems(prims, SignedParams(prims, secret, ps)), '&')
  }

  /** `_make_request_url`. */
  function RequestUrl(prims: Primitives, secret: string, requestUrl: Option<string>, ps: seq<Param>): (url: string)
    ensures |url| == |UrlBase(requestUrl)| + 1 + |Query(prims, secret, ps)|
    ensures url[..|UrlBase(requestUrl)|] == UrlBase(requestUrl)
    ensures url[|UrlBase(requestUrl)|] == '?'
    ensures url[|UrlBase(requestUrl)| + 1..] == Query(prims, secret, ps)
  {
    var base, q := UrlBase(requestUrl), Query(prims, secret, ps);
    assert (base + "?" + q)[|base| + 1..] == q;
    base + "?" + q
  }

  /**
    When quoting never yields `&` (as `quote_plus` guarantees), the query of a
    request splits back into one `k=v` item per non-`None` parameter, in
    order, followed by the signature item.
  */
  lemma QuerySplits(prims: Primitives, secret: string, ps: seq<Param>)
    requires forall s :: '&' !in prims.quotePlus(s)
    ensures Split(Query(prims, secret, ps), '&') ==
            QueryItems(prims, ps) + [prims.quotePlus("api_sig") + "=" + prims.quotePlus(Sign(prims, secret, ps))]
  {
    var sig := Param("api_sig", Some(Sign(prims, secret, ps)));
    QueryItemsAppend(prims, ps, [sig]);
    assert QueryItems(prims, [sig]) == [QueryItem(prims, sig)] by {
      assert [sig][1..] == [];
    }
    QueryItemsNoAmp(prims, SignedParams(prims, secret, ps));
    SplitJoin(QueryItems(prims, SignedParams(prims, secret, ps)), '&');
  }

  // ---------------------------------------------------------------------------
  // Parsed responses (src/rtmapi/__init__.py:133-178)
  // ---------------------------------------------------------------------------

  /** An XML element as ElementTree parses it. */
  datatype Element = Element(tag: string, text: Option<string>, attrs: map<string, string>, children: seq<Element>)

  /** `element.find(tag)`: the first direct child with that tag. */
  function FindChild(children: seq<Element>, tag: string): (r: Option<Element>)
    ensures r.None? <==> forall i :: 0 <= i < |children| ==> children[i].tag != tag
    ensures r.Some? ==> exists i :: 0 <= i < |children| && children[i] == r.value && r.value.tag == tag &&
                                    forall j :: 0 <= j < i ==> children[j].tag != tag
  {
    if |children| == 0 then None
    else if children[0].tag == tag then Some(children[0])
    else
      var r := FindChild(children[1..], tag);
      assert forall i :: 1 <= i < |children| ==> children[i] == children[1..][i - 1];
      r
  }

  /** `element.findall(tag)`: the direct children with that tag, in document order. */
  function FindAll(children: seq<Element>, tag: string): (r: seq<Element>)
    ensures forall i :: 0 <= i < |r| ==> r[i].tag == tag
    ensures forall i :: 0 <= i < |children| && children[i].tag == tag ==> children[i] in r
    ensures forall e :: e in r ==> e in children
  {
    if |children| == 0 then []
    else
      var rest := FindAll(children[1..], tag);
      assert forall i :: 1 <= i < |children| ==> children[i] == children[1..][i - 1];
      if children[0].tag == tag then [children[0]] + rest else rest
  }

  /** `findall` on one child keeps it exactly when it has the tag. */
  lemma FindAllSingle(e: Element, tag: string)
    ensures FindAll([e], tag) == if e.tag == tag then [e] else []
  {
    assert [e][1..] == [];
  }

  /**
    `findall` over consecutive runs of children is the concatenation of the
    runs' matches: document order is kept and each matching child appears
    once for each of its occurrences.
  */
  lemma {:induction false} FindAllAppend(a: seq<Element>, b: seq<Element>, tag: string)
    ensures FindAll(a + b, tag) == FindAll(a, tag) + FindAll(b, tag)
  {
    if |a| > 0 {
      assert (a + b)[1..] == a[1..] + b;
      FindAllAppend(a[1..], b, tag);
    } else {
      assert a + b == b;
    }
  }

  /** A wrapped element (None when a `find` missed) and its path of attribute names. */
  datatype RtmObject = RtmObject(element: Option<Element>, name: string)

  /** What an attribute access on an `RtmObject` yields. */
  datatype Value =
    | Text(text: Option<string>)   // `.value`: the element text
    | Str(s: string)               // an XML attribute
    | Obj(obj: RtmObject)          // a child element, path extended

  /**
    The attributes an `RtmObject` finds without `__getattr__`, besides the
    dunders: its class table, its two fields, `_get_collection` and the
    name-mangled `__getitem`.
  */
  const RtmObjectAttributes: set<string> :=
    {"_lists", "_element", "_name", "_get_collection", "_RtmObject__getitem"}

  /** Python calls `RtmObject.__getattr__` only for a name normal lookup does not find. */
  predicate ReachesGetAttr(name: string)
  {
    name !in RtmObjectAttributes && !IsDunder(name)
  }

  /** A path whose every name reaches `RtmObject.__getattr__`. */
  predicate Forwards(names: seq<string>)
  {
    forall i :: 0 <= i < |names| ==> ReachesGetAttr(names[i])
  }

  /** The attribute paths the client walks: `err.code`, `err.msg`, `frob.value` and `auth.token.value`. */
  function ErrCodePath(): (p: seq<string>)
    ensures Forwards(p)
  {
    ["err", "code"]
  }

  function ErrMsgPath(): (p: seq<string>)
    ensures Forwards(p)
  {
    ["err", "msg"]
  }

  function FrobPath(): (p: seq<string>)
    ensures Forwards(p)
  {
    ["frob", "value"]
  }

  function TokenPath(): (p: seq<string>)
    ensures Forwards(p)
  {
    ["auth", "token", "value"]
  }

  /** `RtmObject.__getattr__`. */
  function GetAttr(o: RtmObject, name: string): (r: Result<Value, Error>)
    requires ReachesGetAttr(name)
    ensures o.element.None? ==> r == Failure(AttributeError)
    ensures o.element.Some? && name == "value" ==> r == Success(Text(o.element.value.text))
    ensures o.element.Some? && name != "value" && name in o.element.value.attrs ==>
              r == Success(Str(o.element.value.attrs[name]))
    ensures o.element.Some? && name != "value" && name !in o.element.value.attrs ==>
              r.Success? && r.value.Obj? && r.value.obj.name == o.name + "/" + name &&
              r.value.obj.element == FindChild(o.element.value.children, name)
  {
    match o.element
    case None => Failure(AttributeError)
    case Some(e) =>
      if name == "value" then Success(Text(e.text))
      else if name in e.attrs then Success(Str(e.attrs[name]))
      else Success(Obj(RtmObject(FindChild(e.children, name), o.name + "/" + name)))
  }

  /** A chain of attribute accesses such as `rsp.auth.token.value`; a string or `None` has none of these attributes. */
  function GetPath(v: Value, names: seq<string>): Result<Value, Error>
    requires Forwards(names)
    decreases |names|
  {
    if |names| == 0 then Success(v)
    else match v
      case Obj(o) =>
        (match GetAttr(o, names[0])
         case Success(w) => GetPath(w, names[1..])
         case Failure(e) => Failure(e))
      case _ => Failure(AttributeError)
  }

  /** `RtmObject._lists`: the child tag of each collection, keyed by the path after the method name. */
  const CollectionTable: map<string, string> := map[
    "contacts" := "contact",
    "groups" := "group",
    "groups/group/contacts" := "contact",
    "method/arguments" := "argument",
    "method/errors" := "error",
    "methods" := "method",
    "list/taskseries/notes" := "note",
    "list/taskseries/participants" := "participant",
    "list/taskseries/task/tags" := "tag",
    "lists" := "list",
    "locations" := "location",
    "tasks" := "list",
    "tasks/list" := "taskseries",
    "tasks/list/taskseries/notes" := "note",
    "tasks/list/taskseries/participants" := "participant",
    "tasks/list/taskseries/tags" := "tag",
    "timezones" := "timezone"
  ]

  /** `RtmObject._get_collection`: the children tagged as the table says for this path. */
  function GetCollection(o: RtmObject): (r: Result<seq<RtmObject>, Error>)
    ensures PartitionTail(o.name, '/') !in CollectionTable ==> r == Failure(ValueError)
    ensures PartitionTail(o.name, '/') in CollectionTable && o.element.None? ==> r == Failure(AttributeError)
    ensures r.Success? ==>
              var child := CollectionTable[PartitionTail(o.name, '/')];
              && o.element.Some?
              && |r.value| == |FindAll(o.element.value.children, child)|
              && forall i :: 0 <= i < |r.value| ==>
                   r.value[i] == RtmObject(Some(FindAll(o.element.value.children, child)[i]), o.name + "/" + child)
                   && r.value[i].element.value.tag == child
  {
    var key := PartitionTail(o.name, '/');
    if key !in CollectionTable then Failure(ValueError)
    else
      var child := CollectionTable[key];
      match o.element
      case None => Failure(AttributeError)
      case Some(e) =>
        var found := FindAll(e.children, child);
        Success(seq(|found|, i requires 0 <= i < |found| => RtmObject(Some(found[i]), o.name + "/" + child)))
  }

  /** The path after a method name that has no `/` is exactly what follows it. */
  lemma PathAfterMethod(methodName: string, path: string)
    requires '/' !in methodName
    ensures PartitionTail(methodName + "/" + path, '/') == path
  {
    FindAfter(methodName, '/', path);
    assert methodName + "/" + path == methodName + ['/'] + path;
  }

  /** A known path under a slash-free method name selects the table's child tag, named after the path. */
  lemma KnownCollection(e: Element, methodName: string, path: string)
    requires '/' !in methodName && path in CollectionTable
    ensures var r := GetCollection(RtmObject(Some(e), methodName + "/" + path));
            var child := CollectionTable[path];
            && r.Success? && |r.value| == |FindAll(e.children, child)|
            && forall i :: 0 <= i < |r.value| ==>
                 r.value[i].name == methodName + "/" + path + "/" + child && r.value[i].element.value.tag == child
  {
    PathAfterMethod(methodName, path);
  }

  /**
    Iterating `rsp.tasks` of a `rtm.tasks.getList` response walks the `list`
    children, and iterating each of those walks its `taskseries` children.
  */
  lemma TasksCollections(tasks: Element, list: Element)
    ensures var r := GetCollection(RtmObject(Some(tasks), "rtm.tasks.getList" + "/" + "tasks"));
            && r.Success? && |r.value| == |FindAll(tasks.children, "list")|
            && forall i :: 0 <= i < |r.value| ==> r.value[i].element.value.tag == "list"
    ensures var r := GetCollection(RtmObject(Some(list), "rtm.tasks.getList" + "/" + "tasks/list"));
            && r.Success? && |r.value| == |FindAll(list.children, "taskseries")|
            && forall i :: 0 <= i < |r.value| ==> r.value[i].element.value.tag == "taskseries"
  {
    var m := "rtm.tasks.getList";
    assert '/' !in m;
    assert CollectionTable["tasks"] == "list";
    assert CollectionTable["tasks/list"] == "taskseries";
    KnownCollection(tasks, m, "tasks");
    KnownCollection(list, m, "tasks/list");
  }

  /** Iterating `rsp.lists` of a `rtm.lists.getList` response walks the `list` children. */
  lemma ListsCollection(lists: Element)
    ensures var r := GetCollection(RtmObject(Some(lists), "rtm.lists.getList" + "/" + "lists"));
            && r.Success? && |r.value| == |FindAll(lists.children, "list")|
            && forall i :: 0 <= i < |r.value| ==> r.value[i].element.value.tag == "list"
  {
    var m := "rtm.lists.getList";
    assert '/' !in m;
    assert CollectionTable["lists"] == "list";
    KnownCollection(lists, m, "lists");
  }

  /** A path absent from the table fails loudly with ValueError, and so does a bare method name. */
  lemma UnknownCollectionFails(e: Element, methodName: string, path: string)
    requires '/' !in methodName
    ensures path !in CollectionTable ==> GetCollection(RtmObject(Some(e), methodName + "/" + path)) == Failure(ValueError)
    ensures GetCollection(RtmObject(Some(e), methodName)) == Failure(ValueError)
  {
    PathAfterMethod(methodName, path);
    assert "" !in CollectionTable;
  }

  // ---------------------------------------------------------------------------
  // Dotted method names (src/rtmapi/__init__.py:118-131)
  // ---------------------------------------------------------------------------

  /** `RtmName`: a partial method name; calling it calls the method of that name. */
  datatype RtmName = RtmName(name: string)

  /** Names of the form `__x__`: every attribute `object` itself defines is one. */
  predicate IsDunder(name: string)
  {
    |name| >= 4 && name[..2] == "__" && name[|name| - 2..] == "__"
  }

  /** The attributes an `Rtm` instance finds without `__getattr__`: its fields, class constants and methods. */
  const RtmAttributes: set<string> :=
    {"api_key", "shared_secret", "perms", "token", "http", "_auth_url", "_base_url",
     "authenticate_desktop", "authenticate_webapp", "token_valid", "retrieve_token",
     "_call_method", "_call_method_auth", "_make_request", "_make_request_url", "_sign_request"}

  /** The attributes an `RtmName` instance finds without `__getattr__`. */
  const RtmNameAttributes: set<string> := {"rtm", "name"}

  /**
    Python calls `__getattr__` only when normal lookup fails, so a chain of
    attributes reaches the service only when its first segment is not an
    attribute of `Rtm` and no later one is an attribute of `RtmName`.
  */
  predicate Forwarded(segments: seq<string>)
  {
    |segments| >= 1
    && segments[0] !in RtmAttributes && !IsDunder(segments[0])
    && forall i :: 1 <= i < |segments| ==> segments[i] !in RtmNameAttributes && !IsDunder(segments[i])
  }

  /** `Rtm.__getattr__` for the first segment, then `RtmName.__getattr__` for each further one. */
  function AttributeChain(segments: seq<string>): RtmName
    requires Forwarded(segments)
  {
    if |segments| == 1 then RtmName(segments[0])
    else
      var front := AttributeChain(segments[..|segments| - 1]);
      RtmName(front.name + "." + segments[|segments| - 1])
  }

  /** The method called through a chain of attributes is the segments joined by dots. */
  lemma {:induction false} AttributeChainJoins(segments: seq<string>)
    requires Forwarded(segments)
    ensures AttributeChain(segments).name == Join(segments, '.')
  {
    if |segments| > 1 {
      var front := segments[..|segments| - 1];
      AttributeChainJoins(front);
      JoinSnoc(front, segments[|segments| - 1], '.');
      assert front + [segments[|segments| - 1]] == segments;
    }
  }

  // ---------------------------------------------------------------------------
  // Calls (src/rtmapi/__init__.py:80-95)
  // ---------------------------------------------------------------------------

  /** The HTTP answer to a request: its status and the parsed body (None when the XML is malformed). */
  datatype HttpResponse = HttpResponse(status: int, body: Option<Element>)

  /** The remote service: the answer it gives to each request URL. */
  type Server = string -> HttpResponse

  /**
    Keyword arguments that collide with a named parameter on the way through
    `_call_method(self, method_name, **params)` and
    `_make_request(self, request_url=None, **params)` (which is also passed
    `method=`): any of them raises TypeError.
  */
  predicate Collides(ps: seq<Param>)
  {
    "self" in Keys(ps) || "method_name" in Keys(ps) || "method" in Keys(ps)
  }

  /** The parameters without the one named `k`. */
  function Without(ps: seq<Param>, k: string): (r: seq<Param>)
    ensures forall p :: p in r <==> p in ps && p.key != k
    ensures Keys(r) == Keys(ps) - {k}
  {
    if |ps| == 0 then []
    else
      var rest := Without(ps[1..], k);
      assert forall p :: p in ps <==> p == ps[0] || p in ps[1..];
      if ps[0].key == k then rest else [ps[0]] + rest
  }

  /**
    The URL of a call: `method` first, then the caller's parameters, except
    that a `request_url` key binds the named parameter of `_make_request`: it
    chooses the endpoint and is neither signed nor sent in the query.
  */
  function CallUrl(prims: Primitives, secret: string, methodName: string, ps: seq<Param>): (url: string)
    ensures "request_url" !in Keys(ps) ==>
              url == RequestUrl(prims, secret, None, [Param("method", Some(methodName))] + ps)
    ensures ValueOf(ps, "request_url").Some? ==>
              url == RequestUrl(prims, secret, ValueOf(ps, "request_url").value,
                                [Param("method", Some(methodName))] + Without(ps, "request_url"))
  {
    if "request_url" !in Keys(ps) then
      RequestUrl(prims, secret, None, [Param("method", Some(methodName))] + ps)
    else
      RequestUrl(prims, secret, ValueOf(ps, "request_url").value,
                 [Param("method", Some(methodName))] + Without(ps, "request_url"))
  }

  /** `rtm_obj.stat == "fail"`: only a `stat` XML attribute can equal a string. */
  predicate StatFails(root: Element)
  {
    GetAttr(RtmObject(Some(root), ""), "stat") == Success(Str("fail"))
  }

  /** `_call_method`. */
  function CallMethod(prims: Primitives, secret: string, methodName: string, ps: seq<Param>, server: Server): (r: Result<RtmObject, Error>)
    ensures Collides(ps) ==> r == Failure(TypeError)
    ensures !Collides(ps) && server(CallUrl(prims, secret, methodName, ps)).status != 200 ==>
              r == Failure(RtmException(HttpStatus(server(CallUrl(prims, secret, methodName, ps)).status)))
    ensures r.Success? <==>
              && !Collides(ps)
              && server(CallUrl(prims, secret, methodName, ps)).status == 200
              && server(CallUrl(prims, secret, methodName, ps)).body.Some?
              && !StatFails(server(CallUrl(prims, secret, methodName, ps)).body.value)
    ensures r.Success? ==> r.value == RtmObject(server(CallUrl(prims, secret, methodName, ps)).body, methodName)
    ensures r.Failure? && r.error.RtmException? ==> !Collides(ps)
    ensures !Collides(ps) && server(CallUrl(prims, secret, methodName, ps)).status == 200 ==>
              var body := server(CallUrl(prims, secret, methodName, ps)).body;
              && (body.None? ==> r == Failure(ParseError))
              && (body.Some? && StatFails(body.value) ==>
                    var obj := Obj(RtmObject(body, methodName));
                    r == if GetPath(obj, ErrCodePath()).Failure? || GetPath(obj, ErrMsgPath()).Failure?
                         then Failure(AttributeError) else Failure(RtmException(ApiStatus)))
  {
    if Collides(ps) then Failure(TypeError)
    else
      var resp := server(CallUrl(prims, secret, methodName, ps));
      if resp.status != 200 then Failure(RtmException(HttpStatus(resp.status)))
      else match resp.body
        case None => Failure(ParseError)
        case Some(root) =>
          var obj := RtmObject(Some(root), methodName);
          // `rtm_obj.stat` reads the same XML attribute whatever the object's name
          if StatFails(root) then
            // building the message reads `err.code` and `err.msg`
            if GetPath(Obj(obj), ErrCodePath()).Failure? || GetPath(Obj(obj), ErrMsgPath()).Failure?
            then Failure(AttributeError)
            else Failure(RtmException(ApiStatus))
          else Success(obj)
  }

  /** A client of the service holding an API key, a shared secret and possibly a token. */
  class Rtm {
    const apiKey: string
    const sharedSecret: string
    const perms: string
    const prims: Primitives
    var token: Option<string>

    constructor (apiKey: string, sharedSecret: string, perms: string, token: Option<string>, prims: Primitives)
      ensures this.apiKey == apiKey && this.sharedSecret == sharedSecret && this.perms == perms
      ensures this.token == token && this.prims == prims
    {
      this.apiKey := apiKey;
      this.sharedSecret := sharedSecret;
      this.perms := perms;
      this.token := token;
      this.prims := prims;
    }

    /**
      The parameters of an authenticated call: `api_key` and `auth_token`,
      overridden by the caller's parameters of the same name.
    */
    function AuthParams(ps: seq<Param>): (r: seq<Param>)
      reads this
      requires DistinctKeys(ps)
      ensures DistinctKeys(r)
      ensures forall k :: ValueOf(r, k) ==
                if k in Keys(ps) then ValueOf(ps, k)
                else if k == "api_key" then Some(Some(apiKey))
                else if k == "auth_token" then Some(token)
                else None
    {
      var base := [Param("api_key", Some(apiKey)), Param("auth_token", token)];
      assert base[1..] == [Param("auth_token", token)];
      assert Keys(base[1..]) == {"auth_token"};
      assert DistinctKeys(base[1..]) by {
        assert base[1..][1..] == [];
      }
      UpdateDistinct(base, ps);
      forall k
        ensures ValueOf(Update(base, ps), k) ==
                if k in Keys(ps) then ValueOf(ps, k)
                else if k == "api_key" then Some(Some(apiKey))
                else if k == "auth_token" then Some(token)
                else None
      {
        UpdateValue(base, ps, k);
      }
      Update(base, ps)
    }

    /** `_call_method_auth`. */
    function CallMethodAuth(methodName: string, ps: seq<Param>, server: Server): (r: Result<RtmObject, Error>)
      reads this
      requires DistinctKeys(ps)
      ensures r == CallMethod(prims, sharedSecret, methodName, AuthParams(ps), server)
      ensures r.Success? ==> r.value.name == methodName
    {
      CallMethod(prims, sharedSecret, methodName, AuthParams(ps), server)
    }

    /** The parameters of the `rtm.auth.checkToken` call. */
    function CheckTokenParams(): seq<Param>
      reads this
    {
      [Param("api_key", Some(apiKey)), Param("auth_token", token)]
    }

    /**
      `token_valid`: no token is invalid without any call; a call rejected with
      RtmException is invalid; any other exception propagates.
    */
    function TokenValid(server: Server): (r: Result<bool, Error>)
      reads this
      ensures token.None? ==> r == Success(false)
      ensures token.Some? ==>
                var call := CallMethod(prims, sharedSecret, "rtm.auth.checkToken", CheckTokenParams(), server);
                && (r == Success(true) <==> call.Success?)
                && (r == Success(false) <==> call.Failure? && call.error.RtmException?)
                && (r.Failure? <==> call.Failure? && !call.error.RtmException?)
    {
      if token.None? then Success(false)
      else
        match CallMethod(prims, sharedSecret, "rtm.auth.checkToken", CheckTokenParams(), server)
        case Success(_) => Success(true)
        case Failure(e) => if e.RtmException? then Success(false) else Failure(e)
    }

    /**
      `authenticate_desktop`: asks for a frob, then builds the signed consent URL
      on the auth endpoint from the key, the permissions and the frob.
    */
    function AuthenticateDesktop(server: Server): (r: Result<(string, Option<string>), Error>)
      ensures r.Success? ==>
                var rsp := CallMethod(prims, sharedSecret, "rtm.auth.getFrob", [Param("api_key", Some(apiKey))], server);
                && rsp.Success?
                && GetPath(Obj(rsp.value), FrobPath()) == Success(Text(r.value.1))
                && r.value.0 == RequestUrl(prims, sharedSecret, Some(AuthUrl),
                                           [Param("api_key", Some(apiKey)), Param("perms", Some(perms)), Param("frob", r.value.1)])
      ensures var rsp := CallMethod(prims, sharedSecret, "rtm.auth.getFrob", [Param("api_key", Some(apiKey))], server);
              rsp.Failure? ==> r == Failure(rsp.error)
      ensures var rsp := CallMethod(prims, sharedSecret, "rtm.auth.getFrob", [Param("api_key", Some(apiKey))], server);
              rsp.Success? ==>
                match GetPath(Obj(rsp.value), FrobPath())
                case Success(Text(f)) =>
                  r == Success((RequestUrl(prims, sharedSecret, Some(AuthUrl),
                                           [Param("api_key", Some(apiKey)), Param("perms", Some(perms)), Param("frob", f)]), f))
                case Success(_) => r == Failure(AttributeError)
                case Failure(e) => r == Failure(e)
    {
      match CallMethod(prims, sharedSecret, "rtm.auth.getFrob", [Param("api_key", Some(apiKey))], server)
      case Failure(e) => Failure(e)
      case Success(rsp) =>
        match GetPath(Obj(rsp), FrobPath())
        case Success(Text(frob)) =>
          var url := RequestUrl(prims, sharedSecret, Some(AuthUrl),
                                [Param("api_key", Some(apiKey)), Param("perms", Some(perms)), Param("frob", frob)]);
          Success((url, frob))
        case Success(_) => Failure(AttributeError)  // `.value` of a plain string
        case Failure(e) => Failure(e)
    }

    /**
      The token the client holds after `retrieve_token(frob)`: None when the
      service rejects the exchange with RtmException, the text of `auth/token`
      on success; any other exception propagates.
    */
    function ExchangedToken(frob: Option<string>, server: Server): Result<Option<string>, Error>
    {
      match CallMethod(prims, sharedSecret, "rtm.auth.getToken", [Param("api_key", Some(apiKey)), Param("frob", frob)], server)
      case Failure(e) => if e.RtmException? then Success(None) else Failure(e)
      case Success(rsp) =>
        match GetPath(Obj(rsp), TokenPath())
        case Success(Text(t)) => Success(t)
        case Success(_) => Failure(AttributeError)
        case Failure(e) => Failure(e)
    }

    /**
      `retrieve_token`: a call rejected with RtmException clears the token and
      answers false; a success stores the text of `auth/token` and answers true;
      any other exception propagates and leaves the token as it was.
    */
    method RetrieveToken(frob: Option<string>, server: Server) returns (r: Result<bool, Error>)
      modifies this`token
      ensures var call := CallMethod(prims, sharedSecret, "rtm.auth.getToken",
                                     [Param("api_key", Some(apiKey)), Param("frob", frob)], server);
              && (call.Failure? && call.error.RtmException? ==> r == Success(false) && token.None?)
              && (call.Failure? && !call.error.RtmException? ==> r == Failure(call.error) && token == old(token))
              && (call.Success? ==>
                    match GetPath(Obj(call.value), TokenPath())
                    case Success(Text(t)) => r == Success(true) && token == t
                    case _ => r.Failure? && token == old(token))
      ensures ExchangedToken(frob, server).Success? ==> r.Success? && token == ExchangedToken(frob, server).value
      ensures ExchangedToken(frob, server).Failure? ==> r == Failure(ExchangedToken(frob, server).error) && token == old(token)
    {
      var call := CallMethod(prims, sharedSecret, "rtm.auth.getToken",
                             [Param("api_key", Some(apiKey)), Param("frob", frob)], server);
      match call
      case Failure(e) =>
        if e.RtmException? {
          token := None;
          r := Success(false);
        } else {
          r := Failure(e);
        }
      case Success(rsp) =>
        match GetPath(Obj(rsp), TokenPath())
        case Success(Text(t)) =>
          token := t;
          r := Success(true);
        case Success(_) =>
          r := Failure(AttributeError);
        case Failure(e) =>
          r := Failure(e);
    }
  }
}
