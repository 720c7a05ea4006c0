/** Names in dictionary order, which settles every choice that would otherwise
    be open (`sorted` and the tie of `min` in cc/regalloc.py:174-175, 281, 418-425). */
module NameOrder {
  /** Character by character; a proper prefix comes first. */
  predicate Before(a: string, b: string) {
    b != "" && (a == "" || a[0] < b[0] || (a[0] == b[0] && Before(a[1..], b[1..])))
  }

  lemma {:induction false} BeforeTotal(a: string, b: string)
    ensures a == b || Before(a, b) || Before(b, a)
  {
    if a != "" && b != "" && a[0] == b[0] {
      BeforeTotal(a[1..], b[1..]);
      assert a == [a[0]] + a[1..] && b == [b[0]] + b[1..];
    }
  }

  lemma {:induction false} BeforeOneWay(a: string, b: string)
    requires Before(a, b)
    ensures !Before(b, a) && a != b
  {
    if a != "" && a[0] == b[0] { BeforeOneWay(a[1..], b[1..]); }
  }

  lemma {:induction false} BeforeTransitive(a: string, b: string, c: string)
    requires Before(a, b) && Before(b, c)
    ensures Before(a, c)
  {
    if a != "" && a[0] == b[0] && b[0] == c[0] { BeforeTransitive(a[1..], b[1..], c[1..]); }
  }

  /** Nothing in `names` comes before `least`. */
  ghost predicate Least(names: set<string>, least: string) {
    least in names && forall n :: n in names && n != least ==> Before(least, n)
  }

  method First(names: set<string>) returns (least: string)
    requires names != {}
    ensures Least(names, least)
  {
    hide Before;
    least :| least in names;
    var left := names - {least};
    while left != {}
      invariant left <= names && Least(names - left, least)
    {
      var n :| n in left;
      LeastOneMore(names - left, least, n);
      assert names - (left - {n}) == names - left + {n};
      if Before(n, least) { least := n; }
      left := left - {n};
    }
    assert names - left == names;
  }

  lemma LeastOneMore(names: set<string>, least: string, n: string)
    requires Least(names, least) && n !in names
    ensures Least(names + {n}, if Before(n, least) then n else least)
  {
    BeforeTotal(n, least);
    if Before(n, least) {
      forall x | x in names && x != least ensures Before(n, x) { BeforeTransitive(n, least, x); }
    }
  }

  // ----- Sequences of names -----

  function Elements(s: seq<string>): set<string> {
    set x | x in s
  }

  predicate Distinct(s: seq<string>) {
    forall i, j :: 0 <= i < j < |s| ==> s[i] != s[j]
  }

  lemma ElementsPush(stack: seq<string>, n: string)
    ensures Elements(stack + [n]) == Elements(stack) + {n}
  {
  }

  lemma NoElements(s: seq<string>)
    ensures s == [] <==> Elements(s) == {}
  {
    if s != [] { assert s[0] in Elements(s); }
  }

  /** `s` lists `names` in order, each once. */
  ghost predicate Lists(names: set<string>, s: seq<string>) {
    Elements(s) == names && forall i, j :: 0 <= i < j < |s| ==> Before(s[i], s[j])
  }

  lemma ListsDistinct(names: set<string>, s: seq<string>)
    requires Lists(names, s)
    ensures Distinct(s)
  {
    forall i, j | 0 <= i < j < |s| ensures s[i] != s[j] { BeforeOneWay(s[i], s[j]); }
  }

  lemma {:induction false} DistinctSize(s: seq<string>)
    requires Distinct(s)
    ensures |Elements(s)| == |s|
  {
    if s != [] {
      var last := |s| - 1;
      DistinctSize(s[..last]);
      assert s == s[..last] + [s[last]];
      ElementsPush(s[..last], s[last]);
      assert s[last] !in Elements(s[..last]);
    }
  }

  lemma ListsSize(names: set<string>, s: seq<string>)
    requires Lists(names, s)
    ensures |s| == |names|
  {
    ListsDistinct(names, s);
    DistinctSize(s);
  }

  lemma ListsPush(names: set<string>, s: seq<string>, left: set<string>, n: string)
    requires Lists(names - left, s) && left <= names && Least(left, n)
    requires forall x, y :: x in names - left && y in left ==> Before(x, y)
    ensures Lists(names - (left - {n}), s + [n])
    ensures forall x, y :: x in names - (left - {n}) && y in left - {n} ==> Before(x, y)
  {
    ElementsPush(s, n);
    assert forall i :: 0 <= i < |s| ==> s[i] in Elements(s);
  }

  lemma ListsRest(names: set<string>, s: seq<string>)
    requires Lists(names, s) && s != []
    ensures Least(names, s[0]) && Lists(names - {s[0]}, s[1..])
  {
    ListsDistinct(names, s);
    var rest := s[1..];
    assert s[0] in Elements(s);
    forall x ensures x in Elements(rest) <==> x in names && x != s[0] {
      if x in names && x != s[0] {
        var i :| 0 <= i < |s| && s[i] == x;
        assert rest[i - 1] == x;
      }
      if x in rest {
        var i :| 0 <= i < |rest| && rest[i] == x;
        assert s[i + 1] == x;
      }
    }
    forall n | n in names && n != s[0] ensures Before(s[0], n) {
      var i :| 0 <= i < |s| && s[i] == n;
    }
  }

  /** A set of names has one listing. */
  lemma {:induction false} ListsIsOne(names: set<string>, s: seq<string>, t: seq<string>)
    requires Lists(names, s) && Lists(names, t)
    ensures s == t
    decreases |s|
  {
    if s == [] || t == [] {
      NoElements(s);
      NoElements(t);
    } else {
      ListsRest(names, s);
      ListsRest(names, t);
      if s[0] != t[0] { BeforeOneWay(s[0], t[0]); }
      ListsIsOne(names - {s[0]}, s[1..], t[1..]);
      assert s == [s[0]] + s[1..] && t == [t[0]] + t[1..];
    }
  }
}
