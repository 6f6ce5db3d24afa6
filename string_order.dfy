/** Lexicographic order on strings by code point, where a proper prefix
    sorts first. On strings within the Basic Multilingual Plane, and so on
    seat ids, it is JavaScript's default `Array.prototype.sort` order, which
    compares UTF-16 code units. Under it "A10" comes before "A2". */
module StringOrder {

  predicate LexLess(a: string, b: string)
  {
    if |a| == 0 then |b| > 0
    else if |b| == 0 then false
    else if a[0] != b[0] then a[0] < b[0]
    else LexLess(a[1..], b[1..])
  }

  lemma {:induction false} LexIrreflexive(a: string)
    ensures !LexLess(a, a)
  {
    if |a| > 0 { LexIrreflexive(a[1..]); }
  }

  lemma {:induction false} LexTransitive(a: string, b: string, c: string)
    requires LexLess(a, b) && LexLess(b, c)
    ensures LexLess(a, c)
  {
    if |a| > 0 && |b| > 0 && |c| > 0 && a[0] == b[0] && b[0] == c[0] {
      LexTransitive(a[1..], b[1..], c[1..]);
    }
  }

  lemma {:induction false} LexTotal(a: string, b: string)
    requires a != b
    ensures LexLess(a, b) || LexLess(b, a)
  {
    if |a| > 0 && |b| > 0 && a[0] == b[0] {
      assert a == [a[0]] + a[1..] && b == [b[0]] + b[1..];
      LexTotal(a[1..], b[1..]);
    }
  }

  /** Every earlier element is strictly smaller than every later one. */
  predicate StrictlyAscending(s: seq<string>) {
    forall i, j :: 0 <= i < j < |s| ==> LexLess(s[i], s[j])
  }

  /** The least element of a non-empty finite set of strings. */
  method Least(s: set<string>) returns (m: string)
    requires s != {}
    ensures m in s
    ensures forall y :: y in s && y != m ==> LexLess(m, y)
  {
    var todo := s;
    m :| m in todo;
    todo := todo - {m};
    while todo != {}
      invariant todo <= s && m in s && m !in todo
      invariant forall y :: y in s && y !in todo && y != m ==> LexLess(m, y)
      decreases |todo|
    {
      var y :| y in todo;
      if LexLess(y, m) {
        forall z | z in s && z !in todo && z != y
          ensures LexLess(y, z)
        {
          if z != m { LexTransitive(y, m, z); }
        }
        m := y;
      } else {
        LexTotal(y, m);
      }
      todo := todo - {y};
    }
  }

  /** `Array.from(s).sort()` on strings within the Basic Multilingual
      Plane: the elements of a set, in ascending order, each exactly once. */
  method SortedElements(s: set<string>) returns (r: seq<string>)
    ensures StrictlyAscending(r)
    ensures forall x :: x in r <==> x in s
    ensures |r| == |s|
  {
    r := [];
    var rest := s;
    while rest != {}
      invariant rest <= s
      invariant forall x :: x in r <==> x in s && x !in rest
      invariant StrictlyAscending(r)
      invariant forall x, y :: x in r && y in rest ==> LexLess(x, y)
      invariant |r| + |rest| == |s|
      decreases |rest|
    {
      var m := Least(rest);
      r := r + [m];
      rest := rest - {m};
    }
  }

  /** A strictly ascending sequence holds no element twice. */
  lemma AscendingIsDuplicateFree(s: seq<string>)
    requires StrictlyAscending(s)
    ensures forall i, j :: 0 <= i < j < |s| ==> s[i] != s[j]
  {
    forall i, j | 0 <= i < j < |s| ensures s[i] != s[j] {
      LexIrreflexive(s[i]);
    }
  }
}
