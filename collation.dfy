/** The order `alphanumSort` puts names in: an `Intl.Collator` comparison with
    `numeric: true` and `sensitivity: 'base'`. A name is cut into chunks: a maximal run of
    decimal digits is one chunk compared by its numeric value, an ASCII letter is compared
    without regard to case, and any other character is compared by its code. Symbols sort
    before numbers and numbers before letters. Names the collator finds equal are ordered
    by their code units, so that the order is total. */
module Collation {

  import opened Numerals

  datatype Chunk = Symbol(code: char) | Number(value: nat) | Letter(base: char)

  predicate IsLetter(c: char)
  {
    'a' <= c <= 'z' || 'A' <= c <= 'Z'
  }

  /** Lower-case form of an ASCII letter; other characters are unchanged. */
  function Fold(c: char): char
  {
    if 'A' <= c <= 'Z' then (c as int + 32) as char else c
  }

  function Rank(k: Chunk): nat
  {
    match k
    case Symbol(_) => 0
    case Number(_) => 1
    case Letter(_) => 2
  }

  predicate ChunkLess(a: Chunk, b: Chunk)
  {
    || Rank(a) < Rank(b)
    || (a.Symbol? && b.Symbol? && a.code < b.code)
    || (a.Number? && b.Number? && a.value < b.value)
    || (a.Letter? && b.Letter? && a.base < b.base)
  }

  /** The collation key of a name. */
  function Key(s: string): (k: seq<Chunk>)
    ensures (k == []) == (s == [])
    ensures forall c :: c in k && c.Letter? ==> 'a' <= c.base <= 'z'
    decreases |s|
  {
    if s == [] then []
    else if IsDigit(s[0]) then
      var n := DigitRun(s);
      [Number(DigitsValue(s[..n]))] + Key(s[n..])
    else if IsLetter(s[0]) then [Letter(Fold(s[0]))] + Key(s[1..])
    else [Symbol(s[0])] + Key(s[1..])
  }

  /** Characters equal up to ASCII case are both digits or neither, both letters or
      neither, and equal unless they are letters. */
  lemma FoldSame(a: char, b: char)
    requires Fold(a) == Fold(b)
    ensures IsDigit(a) <==> IsDigit(b)
    ensures IsLetter(a) <==> IsLetter(b)
    ensures !IsLetter(a) ==> a == b
  {
  }

  /** Names equal up to ASCII case have the same leading digit run. */
  lemma {:induction false} DigitRunSame(s: string, t: string)
    requires |s| == |t| && forall i :: 0 <= i < |s| ==> Fold(s[i]) == Fold(t[i])
    ensures DigitRun(s) == DigitRun(t) && s[..DigitRun(s)] == t[..DigitRun(t)]
    decreases |s|
  {
    if s != [] {
      FoldSame(s[0], t[0]);
      if IsDigit(s[0]) {
        assert forall i :: 0 <= i < |s[1..]| ==> Fold(s[1..][i]) == Fold(t[1..][i]) by {
          forall i | 0 <= i < |s[1..]|
            ensures Fold(s[1..][i]) == Fold(t[1..][i])
          {
            assert s[1..][i] == s[i + 1] && t[1..][i] == t[i + 1];
          }
        }
        DigitRunSame(s[1..], t[1..]);
        var n := DigitRun(s[1..]);
        assert s[..n + 1] == [s[0]] + s[1..][..n];
        assert t[..n + 1] == [t[0]] + t[1..][..n];
      }
    }
  }

  /** The collation key ignores ASCII case: names that differ only in the case of their
      letters have the same key, as `sensitivity: 'base'` makes the collator compare them
      equal. */
  lemma {:induction false} KeyIgnoresCase(s: string, t: string)
    requires |s| == |t| && forall i :: 0 <= i < |s| ==> Fold(s[i]) == Fold(t[i])
    ensures Key(s) == Key(t)
    decreases |s|
  {
    if s != [] {
      FoldSame(s[0], t[0]);
      var n := if IsDigit(s[0]) then DigitRun(s) else 1;
      if IsDigit(s[0]) {
        DigitRunSame(s, t);
      }
      assert forall i :: 0 <= i < |s[n..]| ==> Fold(s[n..][i]) == Fold(t[n..][i]) by {
        forall i | 0 <= i < |s[n..]|
          ensures Fold(s[n..][i]) == Fold(t[n..][i])
        {
          assert s[n..][i] == s[n + i] && t[n..][i] == t[n + i];
        }
      }
      KeyIgnoresCase(s[n..], t[n..]);
    }
  }

  /** The code units of a name, as chunks of one kind, for the final tie-break. */
  function CodeUnits(s: string): (k: seq<Chunk>)
    ensures |k| == |s|
    ensures forall i :: 0 <= i < |s| ==> k[i] == Symbol(s[i])
  {
    seq(|s|, i requires 0 <= i < |s| => Symbol(s[i]))
  }

  /** Lexicographic order on chunk sequences; a proper prefix comes first. */
  predicate KeyLess(a: seq<Chunk>, b: seq<Chunk>)
    decreases |a|
  {
    if a == [] then b != []
    else b != [] && (ChunkLess(a[0], b[0]) || (a[0] == b[0] && KeyLess(a[1..], b[1..])))
  }

  /** `a` sorts strictly before `b`. */
  predicate Less(a: string, b: string)
  {
    || KeyLess(Key(a), Key(b))
    || (Key(a) == Key(b) && KeyLess(CodeUnits(a), CodeUnits(b)))
  }

  lemma {:induction false} KeyLessIrreflexive(a: seq<Chunk>)
    ensures !KeyLess(a, a)
    decreases |a|
  {
    if a != [] {
      KeyLessIrreflexive(a[1..]);
    }
  }

  lemma {:induction false} KeyLessAsymmetric(a: seq<Chunk>, b: seq<Chunk>)
    requires KeyLess(a, b)
    ensures !KeyLess(b, a)
    decreases |a|
  {
    if a != [] && a[0] == b[0] && KeyLess(a[1..], b[1..]) {
      KeyLessAsymmetric(a[1..], b[1..]);
    }
  }

  lemma {:induction false} KeyLessTransitive(a: seq<Chunk>, b: seq<Chunk>, c: seq<Chunk>)
    requires KeyLess(a, b) && KeyLess(b, c)
    ensures KeyLess(a, c)
    decreases |a|
  {
    if a != [] && a[0] == b[0] && b[0] == c[0] && KeyLess(a[1..], b[1..]) && KeyLess(b[1..], c[1..]) {
      KeyLessTransitive(a[1..], b[1..], c[1..]);
    }
  }

  lemma {:induction false} KeyLessTotal(a: seq<Chunk>, b: seq<Chunk>)
    requires a != b
    ensures KeyLess(a, b) || KeyLess(b, a)
    decreases |a|
  {
    if a != [] && b != [] && a[0] == b[0] {
      assert a == [a[0]] + a[1..] && b == [b[0]] + b[1..];
      KeyLessTotal(a[1..], b[1..]);
    }
  }

  lemma LessIrreflexive(a: string)
    ensures !Less(a, a)
  {
    KeyLessIrreflexive(Key(a));
    KeyLessIrreflexive(CodeUnits(a));
  }

  lemma LessAsymmetric(a: string, b: string)
    requires Less(a, b)
    ensures !Less(b, a)
  {
    if KeyLess(Key(a), Key(b)) {
      KeyLessAsymmetric(Key(a), Key(b));
      KeyLessIrreflexive(Key(a));
    } else {
      KeyLessIrreflexive(Key(a));
      KeyLessAsymmetric(CodeUnits(a), CodeUnits(b));
    }
  }

  lemma LessTransitive(a: string, b: string, c: string)
    requires Less(a, b) && Less(b, c)
    ensures Less(a, c)
  {
    if KeyLess(Key(a), Key(b)) && KeyLess(Key(b), Key(c)) {
      KeyLessTransitive(Key(a), Key(b), Key(c));
    } else if Key(a) == Key(b) && Key(b) == Key(c) {
      KeyLessTransitive(CodeUnits(a), CodeUnits(b), CodeUnits(c));
    }
  }

  /** A name that sorts first never has the greater first chunk. */
  lemma FirstChunkOrder(a: string, b: string)
    requires Less(a, b) && a != [] && b != []
    ensures !ChunkLess(Key(b)[0], Key(a)[0])
  {
  }

  /** Any two different names are ordered one way or the other. */
  lemma LessTotal(a: string, b: string)
    requires a != b
    ensures Less(a, b) || Less(b, a)
  {
    if Key(a) != Key(b) {
      KeyLessTotal(Key(a), Key(b));
    } else {
      assert CodeUnits(a) != CodeUnits(b) by {
        if |a| == |b| {
          var i :| 0 <= i < |a| && a[i] != b[i];
          assert CodeUnits(a)[i] != CodeUnits(b)[i];
        }
      }
      KeyLessTotal(CodeUnits(a), CodeUnits(b));
    }
  }

  /** `m` is the name of `s` that sorts after every other. */
  predicate IsLatest(m: string, s: set<string>)
  {
    m in s && forall x :: x in s && x != m ==> Less(x, m)
  }

  lemma {:induction false} LatestExists(s: set<string>)
    requires s != {}
    ensures exists m :: IsLatest(m, s)
    decreases s
  {
    var x :| x in s;
    if s != {x} {
      LatestExists(s - {x});
      var m :| IsLatest(m, s - {x});
      if Less(m, x) {
        forall y | y in s && y != x
          ensures Less(y, x)
        {
          if y != m {
            LessTransitive(y, m, x);
          }
        }
        assert IsLatest(x, s);
      } else {
        LessTotal(m, x);
        assert IsLatest(m, s);
      }
    } else {
      assert IsLatest(x, s);
    }
  }

  lemma LatestUnique(s: set<string>)
    ensures forall m1, m2 :: IsLatest(m1, s) && IsLatest(m2, s) ==> m1 == m2
  {
    forall m1, m2 | IsLatest(m1, s) && IsLatest(m2, s) && m1 != m2
      ensures false
    {
      LessAsymmetric(m1, m2);
    }
  }

  /** The name of a non-empty set that sorts last: the last element of `alphanumSort`. */
  function Latest(s: set<string>): (m: string)
    requires s != {}
    ensures IsLatest(m, s)
  {
    LatestExists(s);
    LatestUnique(s);
    var m :| IsLatest(m, s);
    m
  }

  /** The latest of a single name is that name. */
  lemma LatestOfOne(m: string)
    ensures Latest({m}) == m
  {
    assert IsLatest(m, {m});
    LatestUnique({m});
  }

  /** A name added after the latest name of a listing is the latest of the new listing. */
  lemma LatestAdded(found: set<string>, name: string)
    requires found != {} ==> Less(Latest(found), name)
    ensures Latest(found + {name}) == name
  {
    var s := found + {name};
    forall x | x in s && x != name
      ensures Less(x, name)
    {
      var latest := Latest(found);
      if x != latest {
        LessTransitive(x, latest, name);
      }
    }
    assert IsLatest(name, s);
    LatestUnique(s);
  }

  /** The names strictly increase along `r`. */
  predicate SortedStrictly(r: seq<string>)
  {
    forall i, j :: 0 <= i < j < |r| ==> Less(r[i], r[j])
  }

  /** `alphanumSort` applied to a directory listing: the names of `s`, each once,
      in increasing order. */
  function AlphanumSort(s: set<string>): (r: seq<string>)
    ensures |r| == |s|
    ensures forall x :: x in s <==> x in r
    ensures SortedStrictly(r)
    decreases s
  {
    if s == {} then []
    else
      var m := Latest(s);
      AlphanumSort(s - {m}) + [m]
  }

  /** Any increasing arrangement of a set ends in its latest name. */
  lemma SortedLast(r: seq<string>, s: set<string>)
    requires SortedStrictly(r) && r != []
    requires forall x :: x in s <==> x in r
    ensures s != {} && r[|r| - 1] == Latest(s)
  {
    assert r[|r| - 1] in s;
    var m := Latest(s);
    var k :| 0 <= k < |r| && r[k] == m;
    if k < |r| - 1 {
      LessAsymmetric(r[k], r[|r| - 1]);
    }
  }

  /** Dropping the last name of an increasing arrangement of `s` leaves an increasing
      arrangement of `s` without its latest name. */
  lemma SortedFront(r: seq<string>, s: set<string>)
    requires SortedStrictly(r) && r != []
    requires forall x :: x in s <==> x in r
    ensures SortedStrictly(r[..|r| - 1])
    ensures forall x :: x in s && x != r[|r| - 1] ==> x in r[..|r| - 1]
    ensures forall x :: x in r[..|r| - 1] ==> x in s && x != r[|r| - 1]
  {
    var m := r[|r| - 1];
    var front := r[..|r| - 1];
    forall x | x in front
      ensures x in s - {m}
    {
      var i :| 0 <= i < |front| && front[i] == x;
      assert Less(r[i], m);
      LessIrreflexive(x);
    }
    forall x | x in s - {m}
      ensures x in front
    {
      var i :| 0 <= i < |r| && r[i] == x;
      assert front[i] == x;
    }
  }

  /** Appending the latest name to the sorted rest of a set gives its sorted listing. */
  lemma SortedByLatest(r: seq<string>, s: set<string>)
    requires r != [] && s != {} && r[|r| - 1] == Latest(s)
    requires r[..|r| - 1] == AlphanumSort(s - {Latest(s)})
    ensures r == AlphanumSort(s)
  {
    assert r == r[..|r| - 1] + [r[|r| - 1]];
  }

  /** The sorted listing does not depend on the order the names were listed in: there is
      exactly one increasing arrangement of a set of names. */
  lemma {:induction false} SortedUnique(r: seq<string>, s: set<string>)
    requires SortedStrictly(r)
    requires forall x :: x in s <==> x in r
    ensures r == AlphanumSort(s)
    decreases |r|
  {
    if r == [] {
      assert s == {};
    } else {
      var m, front := r[|r| - 1], r[..|r| - 1];
      SortedLast(r, s);
      SortedFront(r, s);
      SortedUnique(front, s - {m});
      SortedByLatest(r, s);
    }
  }
}
