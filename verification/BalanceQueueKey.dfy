/**
 * The key under which concurrent balance requests share one fetch (integration/ethereum/erc20-abstract.service.ts):
 * the lower-case wallet address, and the lower-case contracts, sorted and joined.
 */
module BalanceQueueKey {
  import InsertionSort

  function LowerChar(c: char): char {
    if 'A' <= c <= 'Z' then c - 'A' + 'a' else c
  }

  function Lower(s: string): (r: string)
    ensures |r| == |s|
  {
    seq(|s|, i requires 0 <= i < |s| => LowerChar(s[i]))
  }

  function LowerAll(s: seq<string>): (r: seq<string>)
    ensures |r| == |s| && forall i :: 0 <= i < |s| ==> r[i] == Lower(s[i])
  {
    seq(|s|, i requires 0 <= i < |s| => Lower(s[i]))
  }

  /** The same character, or the same letter in the two cases. */
  predicate SameLetter(a: char, b: char) {
    || a == b
    || ('A' <= a <= 'Z' && b as int == a as int + 32)
    || ('A' <= b <= 'Z' && a as int == b as int + 32)
  }

  /** Lower case leaves out nothing but the case of letters. */
  lemma LowerIgnoresCase(s: string, t: string)
    ensures Lower(s) == Lower(t) <==> |s| == |t| && forall i :: 0 <= i < |s| ==> SameLetter(s[i], t[i])
    ensures forall i :: 0 <= i < |s| ==> !('A' <= Lower(s)[i] <= 'Z')
  {
    forall i | 0 <= i < |s| && i < |t| ensures LowerChar(s[i]) == LowerChar(t[i]) <==> SameLetter(s[i], t[i]) {
      LowerOfLetter(s[i], t[i]);
    }
    if Lower(s) == Lower(t) {
      forall i | 0 <= i < |s| ensures SameLetter(s[i], t[i]) {
        assert Lower(s)[i] == Lower(t)[i];
      }
    }
  }

  lemma LowerOfLetter(a: char, b: char)
    ensures LowerChar(a) == LowerChar(b) <==> SameLetter(a, b)
  {
  }

  /** The order of Array.sort on strings: by character codes, a prefix first. */
  predicate Leq(a: string, b: string) {
    a == "" || (b != "" && (a[0] < b[0] || (a[0] == b[0] && Leq(a[1..], b[1..]))))
  }

  lemma {:induction false} LeqTotal(a: string, b: string)
    ensures Leq(a, b) || Leq(b, a)
    ensures Leq(a, b) && Leq(b, a) ==> a == b
  {
    if a != "" && b != "" && a[0] == b[0] {
      LeqTotal(a[1..], b[1..]);
      assert a == [a[0]] + a[1..] && b == [b[0]] + b[1..];
    }
  }

  lemma {:induction false} LeqTransitive(a: string, b: string, c: string)
    requires Leq(a, b) && Leq(b, c)
    ensures Leq(a, c)
  {
    if a != "" && a[0] == b[0] == c[0] {
      LeqTransitive(a[1..], b[1..], c[1..]);
    }
  }

  function Sort(s: seq<string>): seq<string> {
    InsertionSort.Sort(s, Leq)
  }

  lemma LeqOrders()
    ensures InsertionSort.TotalOrder(Leq)
    ensures forall x, y :: Leq(x, y) && Leq(y, x) ==> x == y
  {
    hide Leq;
    forall x, y ensures Leq(x, y) || Leq(y, x) ensures Leq(x, y) && Leq(y, x) ==> x == y {
      LeqTotal(x, y);
    }
    forall x, y, z | Leq(x, y) && Leq(y, z) ensures Leq(x, z) {
      LeqTransitive(x, y, z);
    }
  }

  /** Sorting two lists gives the same result exactly when one is a permutation of the other. */
  lemma SameSortIffPermutation(a: seq<string>, b: seq<string>)
    ensures Sort(a) == Sort(b) <==> multiset(a) == multiset(b)
    ensures multiset(Sort(a)) == multiset(a) && multiset(Sort(b)) == multiset(b)
  {
    hide Leq;
    LeqOrders();
    InsertionSort.SameSortIffPermutation(a, b, Leq);
    InsertionSort.SortMultiset(a, Leq);
    InsertionSort.SortMultiset(b, Leq);
  }

  function Join(s: seq<string>): string {
    if s == [] then "" else if |s| == 1 then s[0] else s[0] + "," + Join(s[1..])
  }

  predicate Free(s: string, c: char) {
    forall i :: 0 <= i < |s| ==> s[i] != c
  }

  /** The position of the first occurrence of a character, or the length. */
  function Upto(s: string, c: char): nat {
    if s == "" || s[0] == c then 0 else 1 + Upto(s[1..], c)
  }

  lemma {:induction false} UptoFree(a: string, x: string, c: char)
    requires Free(a, c)
    ensures Upto(a + [c] + x, c) == |a|
    ensures Upto(a, c) == |a|
  {
    if a != "" {
      assert (a + [c] + x)[1..] == a[1..] + [c] + x;
      UptoFree(a[1..], x, c);
    } else {
      assert a + [c] + x == [c] + x;
    }
  }

  /** Text up to the first occurrence of a character is determined by the whole. */
  lemma SplitUnique(a: string, b: string, x: string, y: string, c: char)
    requires Free(a, c) && Free(b, c)
    requires a + [c] + x == b + [c] + y
    ensures a == b && x == y
  {
    UptoFree(a, x, c);
    UptoFree(b, y, c);
    var s, t := a + [c] + x, b + [c] + y;
    assert s[..|a|] == a && t[..|b|] == b && s[|a| + 1..] == x && t[|b| + 1..] == y;
  }

  lemma JoinUpto(a: seq<string>)
    requires a != [] && Free(a[0], ',')
    ensures Upto(Join(a), ',') == |Join(a)| <==> |a| == 1
  {
    UptoFree(a[0], Join(a[1..]), ',');
  }

  lemma {:induction false} JoinInjective(a: seq<string>, b: seq<string>)
    requires a != [] && b != []
    requires forall x :: x in a || x in b ==> Free(x, ',')
    requires Join(a) == Join(b)
    ensures a == b
  {
    JoinUpto(a);
    JoinUpto(b);
    assert a == [a[0]] + a[1..] && b == [b[0]] + b[1..];
    if |a| > 1 {
      SplitUnique(a[0], b[0], Join(a[1..]), Join(b[1..]), ',');
      JoinInjective(a[1..], b[1..]);
    }
  }

  function Key(wallet: string, contracts: seq<string>): string {
    Lower(wallet) + ":" + Join(Sort(LowerAll(contracts)))
  }

  lemma LowerKeepsFree(s: string, c: char)
    requires Free(s, c) && !('a' <= c <= 'z')
    ensures Free(Lower(s), c)
  {
  }

  /**
   * Two requests share a key exactly when they are for the same wallet and their contract lists are
   * permutations of each other, letter case aside. Addresses contain neither of the separators.
   */
  lemma SameKeyIff(wallet1: string, contracts1: seq<string>, wallet2: string, contracts2: seq<string>)
    requires contracts1 != [] && contracts2 != []
    requires Free(wallet1, ':') && Free(wallet2, ':')
    requires forall c :: c in contracts1 || c in contracts2 ==> Free(c, ',')
    ensures Key(wallet1, contracts1) == Key(wallet2, contracts2) <==>
            Lower(wallet1) == Lower(wallet2) && multiset(LowerAll(contracts1)) == multiset(LowerAll(contracts2))
  {
    var l1, l2 := LowerAll(contracts1), LowerAll(contracts2);
    var s1, s2 := Sort(l1), Sort(l2);
    hide Sort;
    SameSortIffPermutation(l1, l2);
    LowerKeepsFree(wallet1, ':');
    LowerKeepsFree(wallet2, ':');
    assert |multiset(s1)| == |s1| && |multiset(l1)| == |l1| && |multiset(s2)| == |s2| && |multiset(l2)| == |l2|;
    forall x | x in s1 || x in s2 ensures Free(x, ',') {
      assert x in multiset(l1) || x in multiset(l2) by { assert x in multiset(s1) || x in multiset(s2); }
      if x in l1 {
        var i :| 0 <= i < |l1| && l1[i] == x;
        assert contracts1[i] in contracts1;
        LowerKeepsFree(contracts1[i], ',');
      } else {
        var i :| 0 <= i < |l2| && l2[i] == x;
        assert contracts2[i] in contracts2;
        LowerKeepsFree(contracts2[i], ',');
      }
    }
    if Key(wallet1, contracts1) == Key(wallet2, contracts2) {
      SplitUnique(Lower(wallet1), Lower(wallet2), Join(s1), Join(s2), ':');
      JoinInjective(s1, s2);
    }
  }
}
