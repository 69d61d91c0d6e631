/** Slash-separated paths, and the code-point order in which tree entries are stored. */
module Paths {

  function FirstSlash(p: string): (i: nat)
    requires '/' in p
    ensures i < |p| && p[i] == '/' && '/' !in p[..i]
  {
    if p[0] == '/' then 0 else
      assert p == [p[0]] + p[1..];
      1 + FirstSlash(p[1..])
  }

  /** Python's p.split("/"). */
  function Split(p: string): (parts: seq<string>)
    ensures ValidParts(parts)
    decreases |p|
  {
    if '/' in p then [p[..FirstSlash(p)]] + Split(p[FirstSlash(p) + 1..]) else [p]
  }

  function Join(parts: seq<string>): string
    requires parts != []
  {
    if |parts| == 1 then parts[0] else parts[0] + "/" + Join(parts[1..])
  }

  predicate ValidParts(parts: seq<string>) {
    parts != [] && forall c <- parts :: '/' !in c
  }

  lemma JoinCons(first: string, rest: seq<string>)
    requires rest != []
    ensures Join([first] + rest) == first + "/" + Join(rest)
  {
    assert ([first] + rest)[1..] == rest;
  }

  lemma {:induction false} JoinSplit(p: string)
    ensures Join(Split(p)) == p
    decreases |p|
  {
    if '/' in p {
      var i := FirstSlash(p);
      JoinSplit(p[i + 1..]);
      JoinCons(p[..i], Split(p[i + 1..]));
      hide Join, Split;
      assert p == p[..i] + "/" + p[i + 1..];
    }
  }

  /** Splitting a name, a slash and a path takes off the name. */
  lemma SplitCons(c: string, rest: string)
    requires '/' !in c
    ensures Split(c + "/" + rest) == [c] + Split(rest)
  {
    var p := c + "/" + rest;
    assert p[..|c|] == c && p[|c|] == '/' && p[|c| + 1..] == rest;
    FirstSlashIs(p, |c|);
  }

  lemma {:induction false} SplitJoin(parts: seq<string>)
    requires ValidParts(parts)
    ensures Split(Join(parts)) == parts
    decreases |parts|
  {
    if |parts| == 1 {
      assert parts == [parts[0]];
    } else {
      SplitJoin(parts[1..]);
      SplitCons(parts[0], Join(parts[1..]));
      assert parts == [parts[0]] + parts[1..];
    }
  }

  lemma FirstSlashIs(p: string, i: nat)
    requires i < |p| && p[i] == '/' && '/' !in p[..i]
    ensures '/' in p && FirstSlash(p) == i
  {
    NotBefore(p, i);
    NotBefore(p, FirstSlash(p));
  }

  lemma NotBefore(p: string, i: nat)
    requires i <= |p| && '/' !in p[..i]
    ensures forall j | 0 <= j < i :: p[j] != '/'
  {
    assert forall j | 0 <= j < i :: p[..i][j] == p[j];
  }

  predicate StartsWith(p: string, prefix: string) {
    prefix <= p
  }

  // ----- Code-point order -----

  predicate Less(a: string, b: string) {
    if b == "" then false
    else if a == "" then true
    else a[0] < b[0] || (a[0] == b[0] && Less(a[1..], b[1..]))
  }

  lemma LessTotal(a: string, b: string)
    ensures Less(a, b) || a == b || Less(b, a)
    ensures !(Less(a, b) && Less(b, a))
    ensures !Less(a, a)
  {
    if a != "" && b != "" {
      LessTotal(a[1..], b[1..]);
      assert a == [a[0]] + a[1..] && b == [b[0]] + b[1..];
    }
    if a != "" {
      LessTotal(a[1..], a[1..]);
    }
  }

  lemma LessTrans(a: string, b: string, c: string)
    requires Less(a, b) && Less(b, c)
    ensures Less(a, c)
  {
    if a != "" {
      if a[0] == b[0] && b[0] == c[0] {
        LessTrans(a[1..], b[1..], c[1..]);
      }
    }
  }

  /** The first index at which the strings differ. */
  predicate Differ(a: string, b: string, i: nat) {
    i < |a| && i < |b| && a[i] != b[i] && forall j | 0 <= j < i :: a[j] == b[j]
  }

  predicate ProperPrefix(a: string, b: string) {
    |a| < |b| && forall j | 0 <= j < |a| :: a[j] == b[j]
  }

  /** The order of strings: a proper prefix comes first, otherwise the first difference decides. */
  lemma {:induction false} LessMeaning(a: string, b: string)
    ensures Less(a, b) <==> ProperPrefix(a, b) || exists i: nat :: Differ(a, b, i) && a[i] < b[i]
    decreases |a|
  {
    if a != "" && b != "" {
      if a[0] == b[0] {
        LessMeaning(a[1..], b[1..]);
        SameHead(a, b);
      } else {
        assert Differ(a, b, 0);
        assert forall i: nat | Differ(a, b, i) :: i == 0;
      }
    } else if b == "" {
      assert forall i: nat :: !Differ(a, b, i);
    }
  }

  lemma SameHead(a: string, b: string)
    requires a != "" && b != "" && a[0] == b[0]
    ensures ProperPrefix(a, b) <==> ProperPrefix(a[1..], b[1..])
    ensures (exists i: nat :: Differ(a, b, i) && a[i] < b[i]) <==>
      exists i: nat :: Differ(a[1..], b[1..], i) && a[1..][i] < b[1..][i]
  {
    var x, y := a[1..], b[1..];
    assert forall j | 0 <= j < |x| :: x[j] == a[j + 1];
    assert forall j | 0 <= j < |y| :: y[j] == b[j + 1];
    if ProperPrefix(x, y) {
      forall j | 0 <= j < |a| ensures a[j] == b[j] {
        assert j > 0 ==> x[j - 1] == y[j - 1];
      }
    }
    forall i: nat ensures Differ(x, y, i) <==> Differ(a, b, i + 1) {
      TailsDiffer(a, b, i);
    }
    if i: nat :| Differ(a, b, i) && a[i] < b[i] {
      assert Differ(x, y, i - 1);
    }
    if i: nat :| Differ(x, y, i) && x[i] < y[i] {
      assert Differ(a, b, i + 1);
    }
  }

  lemma TailsDiffer(a: string, b: string, i: nat)
    requires a != "" && b != "" && a[0] == b[0]
    ensures Differ(a[1..], b[1..], i) <==> Differ(a, b, i + 1)
  {
    var x, y := a[1..], b[1..];
    if Differ(x, y, i) {
      forall j | 0 <= j < i + 1 ensures a[j] == b[j] {
        assert j > 0 ==> x[j - 1] == y[j - 1];
      }
    }
    if Differ(a, b, i + 1) {
      forall j | 0 <= j < i ensures x[j] == y[j] {
        assert a[j + 1] == b[j + 1];
      }
    }
  }
}
