/** The hosts a list of parts stands for, and families of parts that share no host. */
module HostDenote {
  import opened Prelude
  import opened HostSyntax

  ghost predicate Meaningful(x: string) { Balanced(x, false) && Expansion(x).Ok? }

  /** The hosts of one part. */
  ghost function Hosts(x: string): seq<string> { if Meaningful(x) then Expansion(x).value else [] }

  /** The hosts of all parts, in order. */
  ghost function Denoted(l: seq<string>): seq<string> {
    if l == [] then [] else Denoted(l[..|l| - 1]) + Hosts(l[|l| - 1])
  }

  lemma DenotedLast(l: seq<string>, x: string)
    ensures Denoted(l + [x]) == Denoted(l) + Hosts(x)
  {
    var m := l + [x];
    assert m[..|m| - 1] == l && m[|m| - 1] == x;
  }

  lemma Regrouped<T>(a: seq<T>, b: seq<T>, c: seq<T>)
    ensures a + b + c == a + (b + c)
  {
  }

  lemma {:induction false} DenotedAppend(a: seq<string>, b: seq<string>)
    ensures Denoted(a + b) == Denoted(a) + Denoted(b)
  {
    if b == [] {
      assert a + b == a;
    } else {
      var c, last := b[..|b| - 1], b[|b| - 1];
      assert b == c + [last] && a + b == (a + c) + [last];
      DenotedAppend(a, c);
      DenotedLast(a + c, last);
      DenotedLast(c, last);
      Regrouped(Denoted(a), Denoted(c), Hosts(last));
    }
  }

  lemma DenotedOne(x: string)
    ensures Denoted([x]) == Hosts(x)
  {
    assert [x][..0] == [];
  }

  // Families

  ghost predicate Apart(x: string, y: string) {
    forall h | h in Hosts(x) :: h !in Hosts(y)
  }

  ghost predicate Within(x: string, hosts: set<string>) {
    Meaningful(x) && Distinct(Hosts(x)) && forall h | h in Hosts(x) :: h in hosts
  }

  ghost predicate Covered(h: string, parts: set<string>) {
    exists x | x in parts :: h in Hosts(x)
  }

  /** Every host belongs to exactly one of the parts, once. */
  ghost predicate Family(parts: set<string>, hosts: set<string>) {
    && (forall x | x in parts :: Within(x, hosts))
    && (forall x, y | x in parts && y in parts && x != y :: Apart(x, y))
    && (forall h | h in hosts :: Covered(h, parts))
  }

  /** A list of parts stands for `hosts`, each of them once. */
  ghost predicate ListsOnce(l: seq<string>, hosts: set<string>) {
    && (forall x | x in l :: Meaningful(x))
    && Distinct(Denoted(l))
    && forall h :: h in Denoted(l) <==> h in hosts
  }

  lemma {:induction false} HostOfPart(l: seq<string>, i: nat, h: string)
    requires i < |l| && h in Hosts(l[i])
    ensures h in Denoted(l)
  {
    if i < |l| - 1 {
      HostOfPart(l[..|l| - 1], i, h);
    }
  }

  lemma {:induction false} PartOfHost(l: seq<string>, h: string) returns (x: string)
    requires h in Denoted(l)
    ensures x in l && h in Hosts(x)
  {
    var last := l[|l| - 1];
    if h in Hosts(last) {
      x := last;
    } else {
      x := PartOfHost(l[..|l| - 1], h);
    }
  }

  lemma InSomePart(l: seq<string>, h: string)
    ensures h in Denoted(l) <==> exists x | x in l :: h in Hosts(x)
  {
    if h in Denoted(l) {
      var x := PartOfHost(l, h);
    } else {
      forall x | x in l ensures h !in Hosts(x) {
        var i :| 0 <= i < |l| && l[i] == x;
        if h in Hosts(l[i]) {
          HostOfPart(l, i, h);
        }
      }
    }
  }

  lemma DistinctJoin<T>(a: seq<T>, b: seq<T>)
    requires Distinct(a) && Distinct(b) && forall x | x in a :: x !in b
    ensures Distinct(a + b)
  {
    forall i, j | 0 <= i < j < |a + b| ensures (a + b)[i] != (a + b)[j] {
      assert i < |a| <= j ==> a[i] in a && b[j - |a|] in b;
    }
  }

  lemma DistinctParts<T>(a: seq<T>, b: seq<T>)
    requires Distinct(a + b)
    ensures Distinct(a) && Distinct(b) && forall x | x in a :: x !in b
  {
    assert forall i | 0 <= i < |a| :: (a + b)[i] == a[i];
    assert forall i | 0 <= i < |b| :: (a + b)[|a| + i] == b[i];
  }

  /** A family read off in any order, each part once, lists no host twice. */
  lemma {:induction false} FamilyListed(l: seq<string>, parts: set<string>, hosts: set<string>)
    requires Family(parts, hosts) && Distinct(l) && forall x | x in l :: x in parts
    ensures Distinct(Denoted(l))
  {
    if l != [] {
      var init, last := l[..|l| - 1], l[|l| - 1];
      assert last in l && forall x | x in init :: x in l && x != last;
      FamilyListed(init, parts, hosts);
      assert Within(last, hosts);
      forall h | h in Denoted(init) ensures h !in Hosts(last) {
        InSomePart(init, h);
        var x :| x in init && h in Hosts(x);
        assert Apart(x, last);
      }
      DistinctJoin(Denoted(init), Hosts(last));
    }
  }

  lemma FamilyListedWhole(l: seq<string>, parts: set<string>, hosts: set<string>)
    requires Family(parts, hosts) && Distinct(l) && forall x :: x in l <==> x in parts
    ensures ListsOnce(l, hosts)
  {
    FamilyListed(l, parts, hosts);
    assert forall x | x in l :: Within(x, hosts);
    forall h ensures h in Denoted(l) <==> h in hosts {
      InSomePart(l, h);
      assert h in hosts ==> Covered(h, parts);
    }
  }

  lemma {:induction false} PairApart(l: seq<string>, i: nat, j: nat)
    requires Distinct(Denoted(l)) && i < j < |l|
    ensures Apart(l[i], l[j])
  {
    var init, last := l[..|l| - 1], l[|l| - 1];
    DistinctParts(Denoted(init), Hosts(last));
    if j == |l| - 1 {
      forall h | h in Hosts(l[i]) ensures h !in Hosts(last) {
        assert l[i] == init[i] && init[i] in init;
        InSomePart(init, h);
      }
    } else {
      PairApart(init, i, j);
    }
  }

  lemma {:induction false} OneDistinct(l: seq<string>, i: nat)
    requires Distinct(Denoted(l)) && i < |l|
    ensures Distinct(Hosts(l[i]))
  {
    var init, last := l[..|l| - 1], l[|l| - 1];
    DistinctParts(Denoted(init), Hosts(last));
    if i < |l| - 1 {
      OneDistinct(init, i);
    }
  }

  lemma ListedWithin(l: seq<string>, hosts: set<string>, x: string)
    requires ListsOnce(l, hosts) && x in l
    ensures Within(x, hosts)
  {
    var i :| 0 <= i < |l| && l[i] == x;
    OneDistinct(l, i);
    forall h | h in Hosts(x) ensures h in hosts {
      InSomePart(l, h);
    }
  }

  lemma ListedApart(l: seq<string>, x: string, y: string)
    requires Distinct(Denoted(l)) && x in l && y in l && x != y
    ensures Apart(x, y)
  {
    var i :| 0 <= i < |l| && l[i] == x;
    var j :| 0 <= j < |l| && l[j] == y;
    if i < j {
      PairApart(l, i, j);
    } else {
      PairApart(l, j, i);
    }
  }

  /** Conversely, parts that list every host once form a family. */
  lemma ListedFamily(l: seq<string>, hosts: set<string>)
    requires ListsOnce(l, hosts)
    ensures Family((set x | x in l), hosts)
  {
    var parts := set x | x in l;
    forall x | x in parts ensures Within(x, hosts) {
      ListedWithin(l, hosts, x);
    }
    forall x, y | x in parts && y in parts && x != y ensures Apart(x, y) {
      ListedApart(l, x, y);
    }
    forall h | h in hosts ensures Covered(h, parts) {
      InSomePart(l, h);
    }
  }

  // Sizes

  lemma {:induction false} DistinctSize(l: seq<string>, hosts: set<string>)
    requires Distinct(l) && forall h :: h in l <==> h in hosts
    ensures |l| == |hosts|
  {
    if l == [] {
      assert hosts == {};
    } else {
      var init, last := l[..|l| - 1], l[|l| - 1];
      assert last in l && l == init + [last];
      DistinctSize(init, hosts - {last});
    }
  }

  lemma {:induction false} PartSize(l: seq<string>, x: string)
    requires x in l
    ensures |Hosts(x)| <= |Denoted(l)|
  {
    var init, last := l[..|l| - 1], l[|l| - 1];
    assert l == init + [last];
    if x != last {
      PartSize(init, x);
    }
  }
}
