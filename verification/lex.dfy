/** The ordering Python's heap uses on the search's queue entries: strings by
    code point, a proper prefix first; lists of strings element by element, a
    proper prefix first. */
module Lex {

  predicate StrLe(a: string, b: string)
    decreases |a|
  {
    |a| == 0 || (|b| > 0 && (a[0] < b[0] || (a[0] == b[0] && StrLe(a[1..], b[1..]))))
  }

  predicate StrLt(a: string, b: string) {
    StrLe(a, b) && a != b
  }

  predicate PathLe(p: seq<string>, q: seq<string>)
    decreases |p|
  {
    |p| == 0 || (|q| > 0 && (StrLt(p[0], q[0]) || (p[0] == q[0] && PathLe(p[1..], q[1..]))))
  }

  lemma {:induction false} StrLeTotal(a: string, b: string)
    ensures StrLe(a, b) || StrLe(b, a)
    decreases |a|
  {
    if |a| > 0 && |b| > 0 && a[0] == b[0] {
      StrLeTotal(a[1..], b[1..]);
    }
  }

  lemma {:induction false} StrLeAntisymmetric(a: string, b: string)
    requires StrLe(a, b) && StrLe(b, a)
    ensures a == b
    decreases |a|
  {
    if |a| > 0 {
      StrLeAntisymmetric(a[1..], b[1..]);
      assert a == [a[0]] + a[1..];
      assert b == [b[0]] + b[1..];
    }
  }

  lemma {:induction false} StrLeTransitive(a: string, b: string, c: string)
    requires StrLe(a, b) && StrLe(b, c)
    ensures StrLe(a, c)
    decreases |a|
  {
    if |a| > 0 && a[0] == b[0] && b[0] == c[0] {
      StrLeTransitive(a[1..], b[1..], c[1..]);
    }
  }

  lemma StrLtTransitive(a: string, b: string, c: string)
    requires StrLe(a, b) && StrLe(b, c)
    requires StrLt(a, b) || StrLt(b, c)
    ensures StrLt(a, c)
  {
    StrLeTransitive(a, b, c);
    if a == c {
      StrLeAntisymmetric(a, b);
    }
  }

  lemma {:induction false} PathLeTotal(p: seq<string>, q: seq<string>)
    ensures PathLe(p, q) || PathLe(q, p)
    decreases |p|
  {
    if |p| > 0 && |q| > 0 {
      StrLeTotal(p[0], q[0]);
      if p[0] == q[0] {
        PathLeTotal(p[1..], q[1..]);
      }
    }
  }

  lemma {:induction false} PathLeTransitive(p: seq<string>, q: seq<string>, r: seq<string>)
    requires PathLe(p, q) && PathLe(q, r)
    ensures PathLe(p, r)
    decreases |p|
  {
    if |p| > 0 {
      if p[0] == q[0] && q[0] == r[0] {
        PathLeTransitive(p[1..], q[1..], r[1..]);
      } else if StrLt(p[0], q[0]) && q[0] == r[0] {
      } else if p[0] == q[0] && StrLt(q[0], r[0]) {
      } else {
        StrLtTransitive(p[0], q[0], r[0]);
      }
    }
  }

  lemma {:induction false} PathLeReflexive(p: seq<string>)
    ensures PathLe(p, p)
    decreases |p|
  {
    if |p| > 0 {
      PathLeReflexive(p[1..]);
    }
  }
}
