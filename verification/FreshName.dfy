/** Choosing a name for a restored VM: uniqueVMName in pkg/engine/backup.go. */
module FreshName {
  const LIMIT: nat := 63

  function Digit(d: nat): (c: char)
    requires d < 10
  {
    ['0', '1', '2', '3', '4', '5', '6', '7', '8', '9'][d]
  }

  /** A number in decimal, as %d prints it. */
  function Decimal(n: nat): (s: string)
    ensures |s| > 0
  {
    if n < 10 then [Digit(n)] else Decimal(n / 10) + [Digit(n % 10)]
  }

  function Cut(s: string): (r: string)
    ensures |r| <= LIMIT
    ensures |s| <= LIMIT ==> r == s
  {
    if |s| > LIMIT then s[..LIMIT] else s
  }

  function Candidate(base: string, i: nat): (r: string)
    ensures |r| <= LIMIT
  {
    Cut(base + "-" + Decimal(i))
  }

  lemma {:induction false} DecimalIsInjective(m: nat, n: nat)
    ensures Decimal(m) == Decimal(n) ==> m == n
  {
    var s, t := Decimal(m), Decimal(n);
    assert (m >= 10 <==> |s| > 1) && (n >= 10 <==> |t| > 1);
    assert s[|s| - 1] == Digit(m % 10) && t[|t| - 1] == Digit(n % 10);
    if m >= 10 && n >= 10 {
      assert s[..|s| - 1] == Decimal(m / 10) && t[..|t| - 1] == Decimal(n / 10);
      DecimalIsInjective(m / 10, n / 10);
    }
  }

  lemma {:induction false} DecimalGrows(m: nat, n: nat)
    requires m <= n
    ensures |Decimal(m)| <= |Decimal(n)|
  {
    if m >= 10 {
      DecimalGrows(m / 10, n / 10);
    }
  }

  /** Candidates that are not cut short differ from one another and from the base. */
  lemma CandidatesDiffer(base: string, m: nat, n: nat, last: nat)
    requires m < n <= last && |base| + 1 + |Decimal(last)| <= LIMIT
    ensures Candidate(base, m) != Candidate(base, n) && Candidate(base, n) != base && Candidate(base, m) != base
  {
    DecimalGrows(m, last);
    DecimalGrows(n, last);
    var stem := base + "-";
    assert Candidate(base, m)[|stem|..] == Decimal(m) && Candidate(base, n)[|stem|..] == Decimal(n);
    DecimalIsInjective(m, n);
  }

  /** The base and the first candidates after it. */
  function Tried(base: string, n: nat): (names: set<string>)
    requires n >= 2
  {
    {base} + set i | 2 <= i < n :: Candidate(base, i)
  }

  lemma TriedNext(base: string, n: nat)
    requires n >= 2
    ensures Tried(base, n + 1) == Tried(base, n) + {Candidate(base, n)}
  {
    hide Candidate;
  }

  lemma NotTriedBefore(base: string, n: nat, last: nat)
    requires 2 <= n <= last && |base| + 1 + |Decimal(last)| <= LIMIT
    ensures Candidate(base, n) !in Tried(base, n)
  {
    forall i | 2 <= i < n
      ensures Candidate(base, i) != Candidate(base, n)
    {
      CandidatesDiffer(base, i, n, last);
    }
    CandidatesDiffer(base, 0, n, last);
  }

  /** As many names as were tried are taken, if each of them was. */
  lemma {:induction false} TriedCount(base: string, n: nat, last: nat)
    requires 2 <= n <= last + 1 && |base| + 1 + |Decimal(last)| <= LIMIT
    ensures |Tried(base, n)| == n - 1
  {
    hide Candidate, Decimal;
    if n > 2 {
      TriedCount(base, n - 1, last);
      TriedNext(base, n - 1);
      NotTriedBefore(base, n - 1, last);
    } else {
      assert Tried(base, n) == {base};
    }
  }

  lemma {:induction false} SubsetCount(a: set<string>, b: set<string>)
    requires a <= b
    ensures |a| <= |b|
  {
    if a != {} {
      var x :| x in a;
      SubsetCount(a - {x}, b - {x});
    }
  }

  /** Whether the search ends at all. */
  ghost predicate Ends(existing: set<string>, base: string) {
    base !in existing || exists i: nat :: i >= 2 && Candidate(base, i) !in existing
  }

  /** How many digits of a suffix are not cut off. */
  function Room(base: string): (room: int) {
    LIMIT - 1 - |base|
  }

  /** Whether a number is one of those whose suffixes are the only ones there are. */
  predicate Distinct(base: string, j: nat) {
    |Decimal(j)| <= Room(base) && (j >= 2 || (j == 1 && Room(base) == 1))
  }

  /** A suffix that is cut short is that of a smaller number. */
  lemma CutShort(base: string, i: nat)
    requires |base| <= LIMIT && Room(base) >= 1 && |Decimal(i)| > Room(base)
    ensures i >= 10 && Candidate(base, i) == Candidate(base, i / 10)
  {
    var long, short := base + "-" + Decimal(i), base + "-" + Decimal(i / 10);
    assert long[..|short|] == short;
  }

  lemma {:induction false} ShortForm(base: string, i: nat) returns (j: nat)
    requires |base| <= LIMIT && Room(base) >= 1 && (i >= 2 || (i == 1 && Room(base) == 1))
    ensures Distinct(base, j) && Candidate(base, i) == Candidate(base, j)
  {
    if |Decimal(i)| <= Room(base) {
      j := i;
    } else {
      CutShort(base, i);
      assert i < 20 ==> |Decimal(i)| == 2;
      j := ShortForm(base, i / 10);
    }
  }

  /** When the search ends, whatever the base: if the base leaves room for digits, one of the names that fit must be
      free; if it leaves none, all candidates are the same. Otherwise it goes on for ever. */
  lemma WhenItEnds(existing: set<string>, base: string)
    requires |base| <= LIMIT
    ensures Ends(existing, base) <==>
      || base !in existing
      || (Room(base) <= 0 && Cut(base + "-") !in existing)
      || (Room(base) >= 1 && exists j: nat :: Distinct(base, j) && Candidate(base, j) !in existing)
  {
    if Room(base) <= 0 {
      forall i: nat
        ensures Candidate(base, i) == Cut(base + "-")
      {
        assert (base + "-" + Decimal(i))[..LIMIT] == (base + "-")[..LIMIT];
      }
      assert Candidate(base, 2) == Cut(base + "-");
    } else {
      forall i: nat | i >= 2 && Candidate(base, i) !in existing
        ensures exists j: nat :: Distinct(base, j) && Candidate(base, j) !in existing
      {
        var j := ShortForm(base, i);
      }
      if Room(base) == 1 {
        assert Decimal(10) == "10" && Decimal(1) == "1";
        CutShort(base, 10);
      }
    }
  }

  /** Whether the base leaves room for the suffix of the last candidate that could be needed. */
  predicate Roomy(existing: set<string>, base: string) {
    |base| + 1 + |Decimal(|existing| + 1)| <= LIMIT
  }

  /** With that much room the search ends. */
  lemma RoomyEnds(existing: set<string>, base: string)
    requires Roomy(existing, base)
    ensures Ends(existing, base)
  {
    var n := |existing| + 2;
    if Tried(base, n) <= existing {
      SubsetCount(Tried(base, n), existing);
      TriedCount(base, n, |existing| + 1);
    } else {
      var name :| name in Tried(base, n) && name !in existing;
    }
  }

  /** The search, wherever it ends: the name that it chooses is not taken and not too long, and every name before it was
      taken. If the base leaves room, it tries no more names than there are taken, and one. */
  method UniqueName(existing: set<string>, wanted: string) returns (name: string, tried: nat)
    requires Ends(existing, Cut(wanted))
    ensures name !in existing && |name| <= LIMIT
    ensures 1 <= tried && (Roomy(existing, Cut(wanted)) ==> tried <= |existing| + 1)
    ensures tried == 1 ==> name == Cut(wanted)
    ensures tried > 1 ==> name == Candidate(Cut(wanted), tried) && Cut(wanted) in existing
    ensures forall i :: 2 <= i < tried ==> Candidate(Cut(wanted), i) in existing
  {
    var base := Cut(wanted);
    if base !in existing {
      return base, 1;
    }
    ghost var last: nat :| last >= 2 && Candidate(base, last) !in existing;
    var i := 2;
    while true
      invariant 2 <= i <= last && Tried(base, i) <= existing
      invariant Roomy(existing, base) ==> i <= |existing| + 1
      decreases last - i
    {
      var candidate := Candidate(base, i);
      if candidate !in existing {
        return candidate, i;
      }
      TriedNext(base, i);
      if Roomy(existing, base) {
        TriedCount(base, i + 1, |existing| + 1);
        SubsetCount(Tried(base, i + 1), existing);
      }
      i := i + 1;
    }
  }
}
