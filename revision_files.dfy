/** Names of revision files: how `put` forms them and how `rev` reads a number back. */
module RevisionFiles {

  import opened Numerals
  import opened Collation
  import opened JsValues

  predicate EndsWith(s: string, suffix: string)
  {
    |suffix| <= |s| && s[|s| - |suffix|..] == suffix
  }

  /** The listing filter of the store: names ending in ".json". */
  predicate IsJson(name: string)
  {
    EndsWith(name, ".json")
  }

  function JsonNames(names: set<string>): set<string>
  {
    set n | n in names && IsJson(n)
  }

  /** `${rev}-${uid}.json`, the name `put` gives a new revision file. */
  function FileName(rev: Value, uid: string): (name: string)
    ensures IsJson(name)
  {
    var name := Text(rev) + "-" + uid + ".json";
    assert name[|name| - 5..] == ".json";
    name
  }

  /** The revision `rev()` reads off a file name: `parseInt` of the text before the first
      '-', or 1 when that text holds no number. */
  function RevisionNumber(name: string): (r: int)
    ensures r >= 0
    ensures name != [] && IsDigit(name[0]) ==> r == DigitsValue(name[..DigitRun(name)])
  {
    LeadingDigitsRead(name, '-');
    match ParseInt(FirstField(name, '-'))
    case None => 1
    case Some(v) => v
  }

  /** A name made of a run of digits, a '-', and anything after it: the shape of every
      revision file written with a non-negative revision. */
  predicate Numbered(name: string)
  {
    var n := DigitRun(name);
    0 < n < |name| && name[n] == '-'
  }

  /** The number the leading digits of a numbered name denote. */
  function Leading(name: string): nat
    requires Numbered(name)
  {
    DigitsValue(name[..DigitRun(name)])
  }

  /** `rev()` reads the leading number of a numbered name. */
  lemma NumberedRevision(name: string)
    requires Numbered(name)
    ensures RevisionNumber(name) == Leading(name)
  {
    var n := DigitRun(name);
    var d, rest := name[..n], name[n + 1..];
    assert name == d + ['-'] + rest;
    FirstFieldOfDigits(d, '-', rest);
    ParseIntOfDigits(d, "");
    assert d + "" == d;
  }

  /** A numbered name's collation key starts with its leading number. */
  lemma NumberedKey(name: string)
    requires Numbered(name)
    ensures Key(name) != [] && Key(name)[0] == Number(Leading(name))
  {
  }

  /** Between numbered names, a lower leading number sorts first, and a name that sorts
      first never has the higher leading number: revision numbers compare numerically,
      not as text. */
  lemma NumberedOrder(x: string, y: string)
    requires Numbered(x) && Numbered(y)
    ensures Leading(x) < Leading(y) ==> Less(x, y)
    ensures Less(x, y) ==> Leading(x) <= Leading(y)
  {
    NumberedKey(x);
    NumberedKey(y);
  }

  /** The latest of a set of numbered names carries the highest revision number, and that
      is the number `rev()` reads from it. */
  lemma LatestHighest(s: set<string>)
    requires s != {}
    requires forall x :: x in s ==> Numbered(x)
    ensures RevisionNumber(Latest(s)) == Leading(Latest(s))
    ensures forall x :: x in s ==> Leading(x) <= Leading(Latest(s))
  {
    var m := Latest(s);
    NumberedRevision(m);
    forall x | x in s
      ensures Leading(x) <= Leading(m)
    {
      if x != m {
        NumberedOrder(x, m);
      }
    }
  }

  /** The name `put` forms for a non-negative revision is a numbered `.json` name
      whose leading number is that revision. */
  lemma FileNameNumbered(rev: nat, uid: string)
    ensures Numbered(FileName(Int(rev), uid))
    ensures Leading(FileName(Int(rev), uid)) == rev
    ensures IsJson(FileName(Int(rev), uid))
  {
    var d := NatToString(rev);
    var rest := "-" + uid + ".json";
    var name := FileName(Int(rev), uid);
    assert name == d + rest;
    DigitRunOfDigits(d, rest);
    assert name[..|d|] == d;
    assert name[|name| - 5..] == ".json";
  }

  /** The name an auto-numbered `put` writes sorts after a latest name that does not start
      with a letter: a digit-initial name has a lower leading number than the new one, and
      any other name starts with a symbol, which sorts before a number. */
  lemma NewRevisionSortsLast(latest: string, uid: string)
    requires latest != [] && !IsLetter(latest[0])
    ensures Less(latest, FileName(Int(RevisionNumber(latest) + 1), uid))
  {
    var v := RevisionNumber(latest);
    var name := FileName(Int(v + 1), uid);
    FileNameNumbered(v + 1, uid);
    NumberedKey(name);
    if IsDigit(latest[0]) {
      assert Key(latest)[0] == Number(v);
    } else {
      assert Key(latest)[0] == Symbol(latest[0]);
    }
  }

  /** A name that starts with a letter sorts after every numbered name: a number sorts
      before a letter. */
  lemma NumberedBeforeLetter(x: string, y: string)
    requires Numbered(x)
    requires y != [] && IsLetter(y[0])
    ensures Less(x, y)
  {
    NumberedKey(x);
    assert !IsDigit(y[0]);
    assert Key(y)[0] == Letter(Fold(y[0]));
  }

  /** `rev()` reads 0 from the name it stands in for an object without revisions. */
  lemma BaseRevision()
    ensures RevisionNumber("0-a.json") == 0
  {
    assert FileName(Int(0), "a") == "0-a.json" by {
      assert NatToString(0) == "0";
    }
    FileNameNumbered(0, "a");
    NumberedRevision("0-a.json");
  }
}
