/** The child list of the module's `content` element, with nodes named by
    abstract ids, and the two DOM operations the core applies to it. */
module ContentList {

  /** A child of `content`: the caption element, the optional edge
      gradients, and image elements by id. */
  datatype Node = Title | TopGradient | BottomGradient | Img(id: nat)

  /** `parent.insertBefore(n, ref)` for a child `ref`: `n` goes just before
      the first occurrence of `ref`. */
  function InsertBefore(s: seq<Node>, n: Node, ref: Node): (r: seq<Node>)
    requires ref in s
    ensures |r| == |s| + 1
    ensures r[0] == if s[0] == ref then n else s[0]
  {
    if s[0] == ref then [n] + s
    else [s[0]] + InsertBefore(s[1..], n, ref)
  }

  /** Insertion adds `n` and keeps every node that was there. */
  lemma {:induction false} InsertBeforeMembers(s: seq<Node>, n: Node, ref: Node)
    requires ref in s
    ensures forall x :: x in InsertBefore(s, n, ref) <==> x in s || x == n
  {
    if s[0] != ref {
      var t := s[1..];
      assert ref in t;
      InsertBeforeMembers(t, n, ref);
      assert s == [s[0]] + t;
    }
  }

  /** The node inserted before `ref` sits immediately before it, the nodes
      in front of `ref` stay where they were and the rest move back one. */
  lemma {:induction false} InsertBeforePlacement(s: seq<Node>, n: Node, ref: Node)
    requires ref in s
    ensures var r, i := InsertBefore(s, n, ref), IndexOf(s, ref);
      && r[i] == n && r[i + 1] == ref
      && (forall j :: 0 <= j < i ==> r[j] == s[j])
      && (forall j :: i < j <= |s| ==> r[j] == s[j - 1])
  {
    if s[0] != ref {
      var t := s[1..];
      var l := InsertBefore(t, n, ref);
      InsertBeforePlacement(t, n, ref);
      var i := IndexOf(t, ref);
      assert IndexOf(s, ref) == i + 1;
      var r := InsertBefore(s, n, ref);
      assert r == [s[0]] + l;
      assert forall j :: 0 < j <= |s| ==> r[j] == l[j - 1];
      assert forall j :: 0 < j < |s| ==> s[j] == t[j - 1];
    }
  }

  /** Index of the first occurrence of `x`. */
  function IndexOf(s: seq<Node>, x: Node): (i: nat)
    requires x in s
    ensures i < |s| && s[i] == x
    ensures forall j :: 0 <= j < i ==> s[j] != x
  {
    if s[0] == x then 0 else 1 + IndexOf(s[1..], x)
  }

  /** `parent.removeChild(n)` on a list whose nodes are distinct: every
      occurrence of `n` goes, the rest keep their order. */
  function Without(s: seq<Node>, n: Node): (r: seq<Node>)
    ensures forall x :: x in r <==> x in s && x != n
    ensures |r| <= |s|
    ensures n in s ==> |r| < |s|
  {
    if s == [] then []
    else if s[0] == n then Without(s[1..], n)
    else [s[0]] + Without(s[1..], n)
  }

  /** Inserting a node and then removing it gives back the list. */
  lemma {:induction false} RemoveInserted(s: seq<Node>, n: Node, ref: Node)
    requires ref in s && n !in s
    ensures Without(InsertBefore(s, n, ref), n) == s
  {
    if s[0] == ref {
      NotInWithout(s, n);
    } else {
      assert ref in s[1..];
      RemoveInserted(s[1..], n, ref);
    }
  }

  lemma {:induction false} NotInWithout(s: seq<Node>, n: Node)
    requires n !in s
    ensures Without(s, n) == s
  {
    if s != [] {
      NotInWithout(s[1..], n);
    }
  }

  /** The nodes of a list appear once each. */
  predicate Distinct(s: seq<Node>)
  {
    forall i, j :: 0 <= i < j < |s| ==> s[i] != s[j]
  }

  lemma {:induction false} DistinctInsert(s: seq<Node>, n: Node, ref: Node)
    requires Distinct(s) && ref in s && n !in s
    ensures Distinct(InsertBefore(s, n, ref))
  {
    if s[0] == ref {
      DistinctCons(n, s);
    } else {
      var t := s[1..];
      DistinctTail(s);
      assert ref in t && n !in t;
      DistinctInsert(t, n, ref);
      InsertBeforeMembers(t, n, ref);
      DistinctCons(s[0], InsertBefore(t, n, ref));
    }
  }

  /** Dropping the head of a list keeps it distinct, and the head does not
      occur in the rest. */
  lemma DistinctTail(s: seq<Node>)
    requires Distinct(s) && s != []
    ensures Distinct(s[1..]) && s[0] !in s[1..]
  {
    forall i, j | 0 <= i < j < |s| - 1 ensures s[1..][i] != s[1..][j] {
      assert s[1..][i] == s[i + 1] && s[1..][j] == s[j + 1];
    }
    forall k | 0 <= k < |s| - 1 ensures s[1..][k] != s[0] {
      assert s[1..][k] == s[k + 1];
    }
  }

  /** Putting a node that does not occur in a distinct list in front of it
      keeps the list distinct. */
  lemma DistinctCons(x: Node, t: seq<Node>)
    requires Distinct(t) && x !in t
    ensures Distinct([x] + t)
  {
    var r := [x] + t;
    forall i, j | 0 <= i < j < |r| ensures r[i] != r[j] {
      if i == 0 {
        assert r[j] == t[j - 1];
        assert t[j - 1] in t;
      } else {
        assert r[i] == t[i - 1] && r[j] == t[j - 1];
      }
    }
  }

  lemma {:induction false} DistinctWithout(s: seq<Node>, n: Node)
    requires Distinct(s)
    ensures Distinct(Without(s, n))
  {
    if s != [] {
      DistinctTail(s);
      DistinctWithout(s[1..], n);
      if s[0] != n {
        DistinctCons(s[0], Without(s[1..], n));
      }
    }
  }
}
