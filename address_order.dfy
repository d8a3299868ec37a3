/** The order in which the splitter lists accounts: JavaScript's `<` on the
    lower-cased address text, used as the comparator of `Array.prototype.sort`
    (src/ts/split.ts:48). */
module AddressOrder {
  import opened Seqs

  /** `toLowerCase` on one character; only ASCII letters are mapped. */
  function LowerChar(c: char): char
  {
    if 'A' <= c <= 'Z' then (c as int + 32) as char else c
  }

  predicate IsUpper(c: char)
  {
    'A' <= c <= 'Z'
  }

  /** `c` and `d` are equal, or the same ASCII letter in upper and lower case. */
  predicate CaseVariant(c: char, d: char)
  {
    || c == d
    || (IsUpper(c) && d as int == c as int + 32)
    || (IsUpper(d) && c as int == d as int + 32)
  }

  /** `toLowerCase`: the same text with no upper-case letter left. */
  function Lower(s: string): (r: string)
    ensures |r| == |s|
    ensures forall i :: 0 <= i < |s| ==> !IsUpper(r[i]) && CaseVariant(s[i], r[i])
  {
    seq(|s|, i requires 0 <= i < |s| => LowerChar(s[i]))
  }

  /** The contract of `Lower` leaves one possible result. */
  lemma LowerUnique(s: string, r: string)
    requires |r| == |s|
    requires forall i :: 0 <= i < |s| ==> !IsUpper(r[i]) && CaseVariant(s[i], r[i])
    ensures r == Lower(s)
  {
    forall i | 0 <= i < |s|
      ensures r[i] == Lower(s)[i]
    {
      assert CaseVariant(s[i], Lower(s)[i]);
    }
  }

  /** Two accounts have the same lower-cased text exactly when they differ only
      in the case of ASCII letters. */
  lemma SameLowerIffCaseVariants(a: string, b: string)
    ensures Lower(a) == Lower(b) <==> |a| == |b| && forall i :: 0 <= i < |a| ==> CaseVariant(a[i], b[i])
  {
    if |a| == |b| && forall i :: 0 <= i < |a| ==> CaseVariant(a[i], b[i]) {
      forall i | 0 <= i < |a|
        ensures Lower(a)[i] == Lower(b)[i]
      {
        assert CaseVariant(a[i], Lower(a)[i]) && CaseVariant(b[i], Lower(b)[i]);
      }
    }
    if Lower(a) == Lower(b) {
      forall i | 0 <= i < |a|
        ensures CaseVariant(a[i], b[i])
      {
        assert CaseVariant(a[i], Lower(a)[i]) && CaseVariant(b[i], Lower(b)[i]);
      }
    }
  }

  /** JavaScript's `<` on strings: lexicographic on characters, a proper prefix first. */
  predicate StrLess(a: string, b: string)
  {
    if |a| == 0 then |b| > 0
    else if |b| == 0 then false
    else if a[0] != b[0] then a[0] < b[0]
    else StrLess(a[1..], b[1..])
  }

  lemma {:induction false} StrLessIrreflexive(a: string)
    ensures !StrLess(a, a)
  {
    if |a| > 0 {
      StrLessIrreflexive(a[1..]);
    }
  }

  lemma {:induction false} StrLessTransitive(a: string, b: string, c: string)
    requires StrLess(a, b) && StrLess(b, c)
    ensures StrLess(a, c)
  {
    if |a| > 0 && a[0] == b[0] && b[0] == c[0] {
      StrLessTransitive(a[1..], b[1..], c[1..]);
    }
  }

  lemma {:induction false} StrLessTotal(a: string, b: string)
    ensures a == b || StrLess(a, b) || StrLess(b, a)
  {
    if |a| > 0 && |b| > 0 && a[0] == b[0] {
      StrLessTotal(a[1..], b[1..]);
      if a[1..] == b[1..] {
        assert a == [a[0]] + a[1..] && b == [b[0]] + b[1..];
      }
    }
  }

  lemma StrLessAsymmetric(a: string, b: string)
    ensures !(StrLess(a, b) && StrLess(b, a))
  {
    if StrLess(a, b) && StrLess(b, a) {
      StrLessTransitive(a, b, a);
      StrLessIrreflexive(a);
    }
  }

  /** The comparator `(a, b) => a.toLowerCase() < b.toLowerCase() ? -1 : 1`
      puts `a` first exactly when this holds. */
  predicate Before(a: string, b: string)
  {
    StrLess(Lower(a), Lower(b))
  }

  /** No later element belongs before an earlier one. */
  predicate SortedByLower(s: seq<string>)
  {
    forall i, j :: 0 <= i < j < |s| ==> !Before(s[j], s[i])
  }

  /** Every earlier element belongs strictly before every later one. */
  predicate StrictlySortedByLower(s: seq<string>)
  {
    forall i, j :: 0 <= i < j < |s| ==> Before(s[i], s[j])
  }

  /** Accounts that differ are told apart by their lower-cased text. */
  predicate CaseDistinct(s: seq<string>)
  {
    forall i, j :: 0 <= i < |s| && 0 <= j < |s| && s[i] != s[j] ==> Lower(s[i]) != Lower(s[j])
  }

  /** Inserts `x` in front of the first element it belongs before. */
  function Insert(x: string, s: seq<string>): seq<string>
  {
    if |s| == 0 then [x]
    else if Before(x, s[0]) then [x] + s
    else [s[0]] + Insert(x, s[1..])
  }

  /** The sort the source requests, as an insertion sort. */
  function SortByLower(s: seq<string>): seq<string>
  {
    if |s| == 0 then [] else Insert(s[0], SortByLower(s[1..]))
  }

  lemma {:induction false} InsertPermutes(x: string, s: seq<string>)
    ensures multiset(Insert(x, s)) == multiset(s) + multiset{x}
  {
    if |s| > 0 && !Before(x, s[0]) {
      InsertPermutes(x, s[1..]);
      assert s == [s[0]] + s[1..];
    }
  }

  lemma {:induction false} InsertSorted(x: string, s: seq<string>)
    requires SortedByLower(s)
    ensures SortedByLower(Insert(x, s))
  {
    if |s| == 0 {
    } else if Before(x, s[0]) {
      var r := [x] + s;
      forall i, j | 0 <= i < j < |r| ensures !Before(r[j], r[i]) {
        if i == 0 {
          if j == 1 {
            StrLessAsymmetric(Lower(x), Lower(s[0]));
          } else {
            assert r[j] == s[j - 1];
            if Before(r[j], x) {
              StrLessTransitive(Lower(r[j]), Lower(x), Lower(s[0]));
            }
          }
        } else {
          assert r[i] == s[i - 1] && r[j] == s[j - 1];
        }
      }
    } else {
      var t := s[1..];
      InsertSorted(x, t);
      InsertPermutes(x, t);
      var ins := Insert(x, t);
      var r := [s[0]] + ins;
      forall i, j | 0 <= i < j < |r| ensures !Before(r[j], r[i]) {
        if i == 0 {
          var z := r[j];
          assert z in multiset(ins);
          if z != x {
            assert z in multiset(t);
            var k :| 0 <= k < |t| && t[k] == z;
            assert s[k + 1] == z;
          }
        }
      }
    }
  }

  /** The sort rearranges its input into an order with no inversion. */
  lemma {:induction false} SortByLowerCorrect(s: seq<string>)
    ensures multiset(SortByLower(s)) == multiset(s)
    ensures SortedByLower(SortByLower(s))
  {
    if |s| > 0 {
      SortByLowerCorrect(s[1..]);
      InsertPermutes(s[0], SortByLower(s[1..]));
      InsertSorted(s[0], SortByLower(s[1..]));
      assert s == [s[0]] + s[1..];
    }
  }

  /** A rearrangement keeps a sequence free of duplicates. */
  lemma {:induction false} PermutationNoDup(a: seq<string>, b: seq<string>)
    requires multiset(a) == multiset(b) && NoDup(a)
    ensures NoDup(b)
  {
    if !NoDup(b) {
      var i, j :| 0 <= i < j < |b| && b[i] == b[j];
      assert b == b[..j] + [b[j]] + b[j + 1..];
      assert b[i] in multiset(b[..j]);
      assert multiset(b)[b[j]] >= 2;
      MultiplicityAtMostOne(a, b[j]);
    }
  }

  lemma {:induction false} MultiplicityAtMostOne(a: seq<string>, x: string)
    requires NoDup(a)
    ensures multiset(a)[x] <= 1
  {
    if |a| > 0 {
      MultiplicityAtMostOne(a[1..], x);
      assert a == [a[0]] + a[1..];
      if a[0] == x {
        assert x !in a[1..];
      }
    }
  }

  /** Without two accounts equal up to case, the sorted accounts are strictly
      ordered: the comparator never meets a tie. */
  lemma SortStrictWhenCaseDistinct(s: seq<string>)
    requires NoDup(s) && CaseDistinct(s)
    ensures StrictlySortedByLower(SortByLower(s))
  {
    var r := SortByLower(s);
    SortByLowerCorrect(s);
    PermutationNoDup(s, r);
    forall i, j | 0 <= i < j < |r| ensures Before(r[i], r[j]) {
      assert r[i] in multiset(s) && r[j] in multiset(s);
      var i', j' :| 0 <= i' < |s| && 0 <= j' < |s| && s[i'] == r[i] && s[j'] == r[j];
      StrLessTotal(Lower(r[i]), Lower(r[j]));
    }
  }

  lemma HeadBeforeOthers(a: seq<string>, x: string)
    requires StrictlySortedByLower(a) && x in a && x != a[0]
    ensures Before(a[0], x)
  {
    var m :| 0 <= m < |a| && a[m] == x;
  }

  lemma TailMultiset(a: seq<string>, b: seq<string>)
    requires |a| > 0 && |b| > 0 && a[0] == b[0] && multiset(a) == multiset(b)
    ensures multiset(a[1..]) == multiset(b[1..])
  {
    assert a == [a[0]] + a[1..] && b == [b[0]] + b[1..];
    assert multiset(a[1..]) == multiset(a) - multiset{a[0]};
    assert multiset(b[1..]) == multiset(b) - multiset{b[0]};
  }

  /** A strict order admits one arrangement only: whatever algorithm the
      engine's sort uses, on case-distinct accounts it yields this one. */
  lemma {:induction false} StrictlySortedUnique(a: seq<string>, b: seq<string>)
    requires multiset(a) == multiset(b)
    requires StrictlySortedByLower(a) && StrictlySortedByLower(b)
    ensures a == b
  {
    if |a| > 0 {
      assert a[0] in multiset(b);
      assert b[0] in multiset(a);
      if a[0] != b[0] {
        HeadBeforeOthers(a, b[0]);
        HeadBeforeOthers(b, a[0]);
        StrLessAsymmetric(Lower(a[0]), Lower(b[0]));
        assert false;
      }
      TailMultiset(a, b);
      StrictlySortedUnique(a[1..], b[1..]);
    }
  }
}
