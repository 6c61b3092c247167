/** The xor metric and the nearest-node searches of the DHT (udap/dht.cpp,
    include/udap/dht.hpp). */
module DhtMetric {
  import opened Bytes
  import opened Crypto

  const KEY_SIZE: nat := 32

  type Key = k: bytes | |k| == KEY_SIZE witness Zeros(KEY_SIZE)

  function Filled(b: byte): (k: Key)
    ensures forall i :: 0 <= i < KEY_SIZE ==> k[i] == b
  {
    seq(KEY_SIZE, _ => b)
  }

  /** The distance no node is found at: it is where every search starts. */
  const AllOnes: Key := Filled(0xff)

  function Distance(a: Key, b: Key): (d: Key)
  {
    XorBytes(a, b)
  }

  /** memcmp(a, b, 32) < 0, from byte i on. */
  predicate LessFrom(a: Key, b: Key, i: nat)
    requires i <= KEY_SIZE
    decreases KEY_SIZE - i
  {
    i < KEY_SIZE && (a[i] < b[i] || (a[i] == b[i] && LessFrom(a, b, i + 1)))
  }

  predicate Less(a: Key, b: Key)
  {
    LessFrom(a, b, 0)
  }

  /** The number a key denotes from byte i on, the first byte weighing most. */
  function Number(a: Key, i: nat): (n: nat)
    requires i <= KEY_SIZE
    ensures n < Weight(i)
    decreases KEY_SIZE - i
  {
    if i == KEY_SIZE then 0
    else
      Weighs(a[i] as nat, Number(a, i + 1), Weight(i + 1));
      a[i] as nat * Weight(i + 1) + Number(a, i + 1)
  }

  function Weight(i: nat): (w: nat)
    requires i <= KEY_SIZE
    ensures w > 0
    decreases KEY_SIZE - i
  {
    if i == KEY_SIZE then 1 else 256 * Weight(i + 1)
  }

  lemma {:induction false} Weighs(d: nat, n: nat, w: nat)
    requires d < 256 && n < w
    ensures d * w + n < 256 * w
  {
    assert d * w <= 255 * w;
  }

  lemma {:induction false} LeadingDigit(d: nat, e: nat, m: nat, n: nat, w: nat)
    requires m < w && n < w
    ensures d < e ==> d * w + m < e * w + n
    ensures d == e ==> (d * w + m < e * w + n <==> m < n)
  {
    if d < e {
      assert (d + 1) * w <= e * w;
    }
  }

  /** The order of memcmp is the order of the numbers. */
  lemma {:induction false} LessIsSmaller(a: Key, b: Key, i: nat)
    requires i <= KEY_SIZE
    ensures LessFrom(a, b, i) <==> Number(a, i) < Number(b, i)
    decreases KEY_SIZE - i
  {
    if i < KEY_SIZE {
      LessIsSmaller(a, b, i + 1);
      LeadingDigit(a[i] as nat, b[i] as nat, Number(a, i + 1), Number(b, i + 1), Weight(i + 1));
      LeadingDigit(b[i] as nat, a[i] as nat, Number(b, i + 1), Number(a, i + 1), Weight(i + 1));
    }
  }

  /** XorMetric: the order of the bucket of router `us`. */
  predicate Nearer(us: Key, a: Key, b: Key)
  {
    Less(Distance(us, a), Distance(us, b))
  }

  lemma {:induction false} LessFromIrreflexive(a: Key, i: nat)
    requires i <= KEY_SIZE
    ensures !LessFrom(a, a, i)
    decreases KEY_SIZE - i
  {
    if i < KEY_SIZE {
      LessFromIrreflexive(a, i + 1);
    }
  }

  lemma {:induction false} LessFromTransitive(a: Key, b: Key, c: Key, i: nat)
    requires i <= KEY_SIZE
    ensures LessFrom(a, b, i) && LessFrom(b, c, i) ==> LessFrom(a, c, i)
    decreases KEY_SIZE - i
  {
    if i < KEY_SIZE {
      LessFromTransitive(a, b, c, i + 1);
    }
  }

  lemma {:induction false} LessFromTotal(a: Key, b: Key, i: nat)
    requires i <= KEY_SIZE
    ensures LessFrom(a, b, i) || LessFrom(b, a, i) || a[i..] == b[i..]
    decreases KEY_SIZE - i
  {
    if i < KEY_SIZE {
      LessFromTotal(a, b, i + 1);
      assert a[i..] == [a[i]] + a[i + 1..] && b[i..] == [b[i]] + b[i + 1..];
    }
  }

  /** memcmp is a strict total order on keys. */
  lemma LessOrder(a: Key, b: Key, c: Key)
    ensures !Less(a, a)
    ensures Less(a, b) && Less(b, c) ==> Less(a, c)
    ensures Less(a, b) || Less(b, a) || a == b
  {
    LessFromIrreflexive(a, 0);
    LessFromTransitive(a, b, c, 0);
    LessFromTotal(a, b, 0);
    assert a[0..] == a && b[0..] == b;
  }

  lemma XorIsInjective(t: Key, a: Key, b: Key)
    requires Distance(t, a) == Distance(t, b)
    ensures a == b
  {
    forall i | 0 <= i < KEY_SIZE
      ensures a[i] == b[i]
    {
      assert Distance(t, a)[i] == Distance(t, b)[i];
      XorLaws(t[i], a[i], 0);
      XorLaws(t[i], b[i], 0);
      XorLaws(a[i], t[i], 0);
      XorLaws(b[i], t[i], 0);
    }
  }

  lemma DistanceIsSymmetric(a: Key, b: Key)
    ensures Distance(a, b) == Distance(b, a)
  {
    forall i | 0 <= i < KEY_SIZE
      ensures Xor(a[i], b[i]) == Xor(b[i], a[i])
    {
      XorLaws(a[i], b[i], 0);
    }
  }

  /** The xor metric orders the keys of a bucket strictly and totally. */
  lemma NearerIsAStrictTotalOrder(us: Key, a: Key, b: Key, c: Key)
    ensures !Nearer(us, a, a)
    ensures Nearer(us, a, b) && Nearer(us, b, c) ==> Nearer(us, a, c)
    ensures Nearer(us, a, b) || Nearer(us, b, a) || a == b
    ensures Nearer(us, a, b) ==> !Nearer(us, b, a)
  {
    LessOrder(Distance(us, a), Distance(us, b), Distance(us, c));
    LessOrder(Distance(us, a), Distance(us, b), Distance(us, a));
    if Distance(us, a) == Distance(us, b) {
      XorIsInjective(us, a, b);
    }
  }

  lemma {:induction false} AllOnesIsLargestFrom(a: Key, i: nat)
    requires i <= KEY_SIZE
    ensures LessFrom(a, AllOnes, i) || a[i..] == AllOnes[i..]
    decreases KEY_SIZE - i
  {
    if i < KEY_SIZE {
      AllOnesIsLargestFrom(a, i + 1);
      assert a[i..] == [a[i]] + a[i + 1..] && AllOnes[i..] == [AllOnes[i]] + AllOnes[i + 1..];
    }
  }

  lemma BelowAllOnes(a: Key)
    ensures Less(a, AllOnes) <==> a != AllOnes
  {
    AllOnesIsLargestFrom(a, 0);
    LessOrder(AllOnes, a, a);
    assert a[0..] == a && AllOnes[0..] == AllOnes;
  }

  // ----- the searches -------------------------------------------------------------

  /** A node a search may find. */
  predicate MayFind(k: Key, target: Key, exclude: set<Key>)
  {
    k !in exclude && Distance(k, target) != AllOnes
  }

  function Eligible(nodes: set<Key>, target: Key, exclude: set<Key>): (e: set<Key>)
  {
    set k | k in nodes && MayFind(k, target, exclude)
  }

  /** k is the nearest eligible node. */
  ghost predicate IsClosest(nodes: set<Key>, target: Key, exclude: set<Key>, k: Key)
  {
    && k in Eligible(nodes, target, exclude)
    && forall o :: o in nodes && o !in exclude && o != k ==> Less(Distance(k, target), Distance(o, target))
  }

  lemma ClosestIsUnique(nodes: set<Key>, target: Key, exclude: set<Key>, k: Key, l: Key)
    requires IsClosest(nodes, target, exclude, k) && IsClosest(nodes, target, exclude, l)
    ensures k == l
  {
    LessOrder(Distance(k, target), Distance(l, target), Distance(k, target));
  }

  /** The nearest eligible node, if there is one. */
  ghost function Closest(nodes: set<Key>, target: Key, exclude: set<Key>): (r: Option<Key>)
    ensures r.Some? ==> IsClosest(nodes, target, exclude, r.value)
    ensures r.None? ==> forall k :: !IsClosest(nodes, target, exclude, k)
  {
    if exists k :: IsClosest(nodes, target, exclude, k) then var k :| IsClosest(nodes, target, exclude, k); Some(k) else None
  }

  /** FindCloseExcluding: true exactly when a node that is not excluded has a
      distance other than all ones, and then the result is the nearest such node;
      otherwise the result is left alone. */
  method FindCloseExcluding(nodes: set<Key>, target: Key, was: Key, exclude: set<Key>) returns (found: bool, result: Key)
    ensures found <==> Eligible(nodes, target, exclude) != {}
    ensures found ==> IsClosest(nodes, target, exclude, result) && Closest(nodes, target, exclude) == Some(result)
    ensures !found ==> result == was && Closest(nodes, target, exclude).None?
  {
    result := was;
    var mindist := AllOnes;
    var todo, seen: set<Key> := nodes, {};
    while todo != {}
      invariant seen !! todo && seen + todo == nodes
      invariant mindist == AllOnes ==> result == was && Eligible(seen, target, exclude) == {}
      invariant mindist != AllOnes ==> IsClosest(seen, target, exclude, result) && mindist == Distance(result, target)
      decreases todo
    {
      var item :| item in todo;
      todo := todo - {item};
      if item !in exclude {
        var curDist := Distance(item, target);
        NextCandidate(seen, target, exclude, result, mindist, item);
        if Less(curDist, mindist) {
          mindist := curDist;
          result := item;
        }
      } else {
        assert Eligible(seen + {item}, target, exclude) == Eligible(seen, target, exclude);
      }
      seen := seen + {item};
    }
    assert seen == nodes;
    BelowAllOnes(mindist);
    found := Less(mindist, AllOnes);
    if found {
      ClosestIsUnique(nodes, target, exclude, result, Closest(nodes, target, exclude).value);
    }
  }

  /** One round of a search. */
  lemma NextCandidate(seen: set<Key>, target: Key, exclude: set<Key>, result: Key, mindist: Key, item: Key)
    requires item !in seen && item !in exclude
    requires mindist == AllOnes ==> Eligible(seen, target, exclude) == {}
    requires mindist != AllOnes ==> IsClosest(seen, target, exclude, result) && mindist == Distance(result, target)
    ensures var d := Distance(item, target);
            if Less(d, mindist) then d != AllOnes && IsClosest(seen + {item}, target, exclude, item)
            else if mindist == AllOnes then Eligible(seen + {item}, target, exclude) == {}
            else IsClosest(seen + {item}, target, exclude, result)
  {
    if Less(Distance(item, target), mindist) {
      NearerCandidate(seen, target, exclude, result, mindist, item);
    } else {
      FartherCandidate(seen, target, exclude, result, mindist, item);
    }
  }

  lemma NearerCandidate(seen: set<Key>, target: Key, exclude: set<Key>, result: Key, mindist: Key, item: Key)
    requires item !in seen && item !in exclude && Less(Distance(item, target), mindist)
    requires mindist == AllOnes ==> Eligible(seen, target, exclude) == {}
    requires mindist != AllOnes ==> IsClosest(seen, target, exclude, result) && mindist == Distance(result, target)
    ensures Distance(item, target) != AllOnes && IsClosest(seen + {item}, target, exclude, item)
  {
    var d := Distance(item, target);
    BelowAllOnes(mindist);
    LessOrder(d, mindist, AllOnes);
    BelowAllOnes(d);
    forall o | o in seen + {item} && o !in exclude && o != item
      ensures Less(d, Distance(o, target))
    {
      LessOrder(d, mindist, Distance(o, target));
      if mindist == AllOnes {
        assert o !in Eligible(seen, target, exclude);
      }
    }
  }

  lemma FartherCandidate(seen: set<Key>, target: Key, exclude: set<Key>, result: Key, mindist: Key, item: Key)
    requires item !in seen && item !in exclude && !Less(Distance(item, target), mindist)
    requires mindist == AllOnes ==> Eligible(seen, target, exclude) == {}
    requires mindist != AllOnes ==> IsClosest(seen, target, exclude, result) && mindist == Distance(result, target)
    ensures if mindist == AllOnes then Eligible(seen + {item}, target, exclude) == {}
            else IsClosest(seen + {item}, target, exclude, result)
  {
    var d := Distance(item, target);
    BelowAllOnes(d);
    if mindist == AllOnes {
      assert forall o :: o in Eligible(seen + {item}, target, exclude) ==> o in Eligible(seen, target, exclude);
    } else {
      DifferentDistance(target, item, result);
      LessOrder(mindist, d, d);
    }
  }

  lemma DifferentDistance(t: Key, a: Key, b: Key)
    requires a != b
    ensures Distance(a, t) != Distance(b, t)
  {
    DistanceIsSymmetric(a, t);
    DistanceIsSymmetric(b, t);
    if Distance(a, t) == Distance(b, t) {
      XorIsInjective(t, a, b);
    }
  }

  lemma {:induction false} XorSelf(a: nat, k: nat)
    ensures XorBits(a, a, k) == 0
  {
    if k > 0 {
      XorSelf(a / 2, k - 1);
    }
  }

  lemma {:induction false} NothingIsBelowZero(d: Key, zero: Key, i: nat)
    requires i <= KEY_SIZE && forall j :: 0 <= j < KEY_SIZE ==> zero[j] == 0
    ensures !LessFrom(d, zero, i)
    decreases KEY_SIZE - i
  {
    if i < KEY_SIZE {
      NothingIsBelowZero(d, zero, i + 1);
    }
  }

  /** Every key is nearest to itself. */
  lemma {:induction false} SelfIsNearest(t: Key, k: Key)
    ensures Distance(t, t) != AllOnes && (k != t ==> Less(Distance(t, t), Distance(k, t)))
  {
    var zero := Distance(t, t);
    forall j | 0 <= j < KEY_SIZE
      ensures zero[j] == 0
    {
      XorSelf(t[j] as nat, BYTE_BITS);
    }
    assert zero[0] != AllOnes[0];
    NothingIsBelowZero(Distance(k, t), zero, 0);
    LessOrder(zero, Distance(k, t), zero);
    if k != t {
      DifferentDistance(t, k, t);
    }
  }

  /** A target that a search may find is found. */
  lemma {:induction false} KnownIsClosest(nodes: set<Key>, target: Key, exclude: set<Key>)
    ensures Closest(nodes, target, exclude) == Some(target) <==> target in nodes && target !in exclude
  {
    SelfIsNearest(target, target);
    if target in nodes && target !in exclude {
      forall o | o in nodes && o !in exclude && o != target
        ensures Less(Distance(target, target), Distance(o, target))
      {
        SelfIsNearest(target, o);
      }
      assert IsClosest(nodes, target, exclude, target);
      ClosestIsUnique(nodes, target, exclude, target, Closest(nodes, target, exclude).value);
    }
  }

  /** FindClosest reports whether there is any node at all. */
  method FindClosest(nodes: set<Key>, target: Key, was: Key) returns (found: bool, result: Key)
    ensures found <==> nodes != {}
    ensures match Closest(nodes, target, {})
            case Some(k) => result == k
            case None => result == was
  {
    result := was;
    var mindist := AllOnes;
    var todo, seen: set<Key> := nodes, {};
    while todo != {}
      invariant seen !! todo && seen + todo == nodes
      invariant mindist == AllOnes ==> result == was && Eligible(seen, target, {}) == {}
      invariant mindist != AllOnes ==> IsClosest(seen, target, {}, result) && mindist == Distance(result, target)
      decreases todo
    {
      var item :| item in todo;
      todo := todo - {item};
      var curDist := Distance(item, target);
      NextCandidate(seen, target, {}, result, mindist, item);
      if Less(curDist, mindist) {
        mindist := curDist;
        result := item;
      }
      seen := seen + {item};
    }
    assert seen == nodes;
    if mindist != AllOnes {
      ClosestIsUnique(nodes, target, {}, result, Closest(nodes, target, {}).value);
    }
    found := nodes != {};
  }

  /** The nearest eligible node exists as soon as any node is eligible. */
  lemma {:induction false} ClosestExists(nodes: set<Key>, target: Key, exclude: set<Key>)
    ensures Closest(nodes, target, exclude).Some? <==> Eligible(nodes, target, exclude) != {}
    decreases nodes
  {
    if nodes != {} {
      var item :| item in nodes;
      var rest := nodes - {item};
      ClosestExists(rest, target, exclude);
      assert rest + {item} == nodes;
      if item in exclude {
        assert Eligible(nodes, target, exclude) == Eligible(rest, target, exclude);
        if Closest(rest, target, exclude).Some? {
          assert IsClosest(nodes, target, exclude, Closest(rest, target, exclude).value);
        }
      } else {
        var r := Closest(rest, target, exclude);
        var mindist := if r.Some? then Distance(r.value, target) else AllOnes;
        NextCandidate(rest, target, exclude, if r.Some? then r.value else item, mindist, item);
      }
    }
  }

  /** The two searches agree on an empty exclusion set, except when the only node is
      the one at the distance of all ones: then FindClosest claims a result that it
      never wrote. */
  lemma SearchesAgree(nodes: set<Key>, target: Key)
    ensures (nodes != {} <==> Closest(nodes, target, {}).Some?) <==>
            !(exists k :: nodes == {k} && Distance(k, target) == AllOnes)
  {
    ClosestExists(nodes, target, {});
    if nodes != {} && Eligible(nodes, target, {}) == {} {
      var k :| k in nodes;
      assert k !in Eligible(nodes, target, {});
      forall o | o in nodes
        ensures o == k
      {
        assert o !in Eligible(nodes, target, {});
        if o != k {
          DifferentDistance(target, o, k);
        }
      }
      assert nodes == {k};
    }
  }
}
