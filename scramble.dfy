/**
 * The scrambled heading of the page (script.js:151-216): every CJK character
 * and every letter or digit first shows a random stand-in of its own kind,
 * and over the animation the original characters come back in a random order.
 */
module Scramble {
  import opened JsMath

  const CjkFirst: int := 0x4E00
  const CjkLast: int := 0x9FA5

  /** The characters the stand-ins for letters and digits come from (script.js:164 and :203). */
  const Alphabet: string := "ABCDEFGHIJKLMNOPQRSTUVWXYZabcdefghijklmnopqrstuvwxyz0123456789"

  /** The n characters from `first` on, in code order. */
  function Letters(first: char, n: nat): (s: string)
    requires first as int + n <= 0xD800
    ensures |s| == n && forall i :: 0 <= i < n ==> s[i] as int == first as int + i
  {
    seq(n, i requires 0 <= i < n => (first as int + i) as char)
  }

  /** The class [一-龥] of the page's regular expressions. */
  predicate IsCjk(c: char)
  {
    CjkFirst <= c as int <= CjkLast
  }

  /** The class [a-zA-Z0-9]. */
  predicate IsAlnum(c: char)
  {
    'A' <= c <= 'Z' || 'a' <= c <= 'z' || '0' <= c <= '9'
  }

  /** A random CJK character: the code unit 0x4E00 + floor(r * 20902) (script.js:161 and :201). */
  function RandomCjk(r: Draw): (c: char)
    ensures IsCjk(c)
  {
    (ScaledFloor(r, CjkLast - CjkFirst + 1) + CjkFirst) as char
  }

  /** Every character of the class can come out. */
  lemma RandomCjkCovers(c: char)
    requires IsCjk(c)
    ensures exists r: Draw :: RandomCjk(r) == c
  {
    var k: nat := c as int - CjkFirst;
    var n: nat := CjkLast - CjkFirst + 1;
    ScaledFloorReaches(n, k);
    var r: Draw := k as real / n as real;
    assert RandomCjk(r) == c;
  }

  /** A random letter or digit (script.js:164-165 and :203-204). */
  function RandomAlnum(r: Draw): (c: char)
    ensures IsAlnum(c)
  {
    AlphabetIsAlnum();
    Alphabet[ScaledFloor(r, |Alphabet|)]
  }

  /** The alphabet lists the capitals, the small letters and the digits, each in code order. */
  lemma AlphabetInOrder()
    ensures Alphabet == Letters('A', 26) + Letters('a', 26) + Letters('0', 10)
  {
    assert Alphabet == "ABCDEFGHIJKLMNOPQRSTUVWXYZ" + "abcdefghijklmnopqrstuvwxyz" + "0123456789";
    CapitalsInOrder();
    SmallLettersInOrder();
    DigitsInOrder();
  }

  lemma CapitalsInOrder()
    ensures Letters('A', 26) == "ABCDEFGHIJKLMNOPQRSTUVWXYZ"
  {
  }

  lemma SmallLettersInOrder()
    ensures Letters('a', 26) == "abcdefghijklmnopqrstuvwxyz"
  {
  }

  lemma DigitsInOrder()
    ensures Letters('0', 10) == "0123456789"
  {
  }

  /** The alphabet holds exactly the letters and digits. */
  lemma AlphabetIsAlnum()
    ensures |Alphabet| == 62
    ensures forall i :: 0 <= i < |Alphabet| ==> IsAlnum(Alphabet[i])
    ensures forall c :: IsAlnum(c) ==> c in Alphabet
  {
    AlphabetInOrder();
    forall c | IsAlnum(c)
      ensures c in Alphabet
    {
      if 'A' <= c <= 'Z' {
        assert Alphabet[c as int - 'A' as int] == c;
      } else if 'a' <= c <= 'z' {
        assert Alphabet[c as int - 'a' as int + 26] == c;
      } else {
        assert Alphabet[c as int - '0' as int + 52] == c;
      }
    }
  }

  /** Every letter and digit can come out. */
  lemma RandomAlnumCovers(c: char)
    requires IsAlnum(c)
    ensures exists r: Draw :: RandomAlnum(r) == c
  {
    AlphabetIsAlnum();
    var k :| 0 <= k < |Alphabet| && Alphabet[k] == c;
    ScaledFloorReaches(|Alphabet|, k);
    var r: Draw := k as real / |Alphabet| as real;
    assert RandomAlnum(r) == c;
  }

  /**
   * The stand-in for c (script.js:157-170 and :200-205): a random character
   * of the same kind, and c itself when it is neither CJK nor a letter or
   * digit, so punctuation and spaces are never altered.
   */
  function Disguise(c: char, r: Draw): (d: char)
    ensures Masks(d, c)
  {
    if IsCjk(c) then RandomCjk(r)
    else if IsAlnum(c) then RandomAlnum(r)
    else c
  }

  /** d may be shown in place of c: of the same kind, and c itself for any other character. */
  predicate Masks(d: char, c: char)
  {
    && (IsCjk(c) ==> IsCjk(d))
    && (IsAlnum(c) ==> IsAlnum(d))
    && (!IsCjk(c) && !IsAlnum(c) ==> d == c)
  }

  /** The indices 0 .. n-1 in order: revealIndices before the shuffle (script.js:173). */
  function Range(n: nat): (s: seq<nat>)
    ensures |s| == n && forall i :: 0 <= i < n ==> s[i] == i
  {
    seq(n, i => i)
  }

  /** s holds each of 0 .. n-1 exactly once. */
  predicate IsPermutation(s: seq<nat>, n: nat)
  {
    && |s| == n
    && multiset(s) == multiset(Range(n))
    && (forall i :: 0 <= i < |s| ==> s[i] < n)
    && forall i, j :: 0 <= i < j < |s| ==> s[i] != s[j]
  }

  /** The identity arrangement is one. */
  lemma RangeIsPermutation(n: nat)
    ensures IsPermutation(Range(n), n)
  {
  }

  /** Every index below n is an entry of a permutation of 0 .. n-1. */
  lemma PermutationCovers(s: seq<nat>, n: nat)
    requires IsPermutation(s, n)
    ensures forall p :: 0 <= p < n ==> p in s
  {
    forall p | 0 <= p < n
      ensures p in s
    {
      assert Range(n)[p] == p;
      assert p in multiset(Range(n));
      assert p in multiset(s);
    }
  }

  /** s with the entries at i and j exchanged. */
  function Exchange(s: seq<nat>, i: nat, j: nat): (t: seq<nat>)
    requires i < |s| && j < |s|
    ensures |t| == |s| && t[i] == s[j] && t[j] == s[i]
    ensures forall k :: 0 <= k < |s| && k != i && k != j ==> t[k] == s[k]
  {
    s[i := s[j]][j := s[i]]
  }

  /** An exchange keeps a permutation a permutation. */
  lemma ExchangeKeepsPermutation(s: seq<nat>, n: nat, i: nat, j: nat)
    requires IsPermutation(s, n) && i < n && j < n
    ensures IsPermutation(Exchange(s, i, j), n)
  {
    var t := Exchange(s, i, j);
    assert multiset(s[i := s[j]]) == multiset(s) - multiset{s[i]} + multiset{s[j]};
    assert multiset(t) == multiset(s[i := s[j]]) - multiset{s[i := s[j]][j]} + multiset{s[i]};
  }

  /** One exchange of the sort: the two positions it swaps. */
  datatype Swap = Swap(i: nat, j: nat)

  predicate SwapsWithin(swaps: seq<Swap>, n: nat)
  {
    forall k :: 0 <= k < |swaps| ==> swaps[k].i < n && swaps[k].j < n
  }

  /** s after the exchanges, in order. */
  function Exchanged(s: seq<nat>, swaps: seq<Swap>): (t: seq<nat>)
    requires SwapsWithin(swaps, |s|)
    ensures |t| == |s|
    decreases |swaps|
  {
    if swaps == [] then s
    else Exchanged(Exchange(s, swaps[0].i, swaps[0].j), swaps[1..])
  }

  /**
   * Whatever order the random comparator of script.js:176 makes the sort
   * produce, the result holds the same entries: a permutation stays one.
   */
  lemma {:induction false} ExchangedKeepsPermutation(s: seq<nat>, n: nat, swaps: seq<Swap>)
    requires IsPermutation(s, n) && SwapsWithin(swaps, n)
    ensures IsPermutation(Exchanged(s, swaps), n)
    decreases |swaps|
  {
    if swaps != [] {
      ExchangeKeepsPermutation(s, n, swaps[0].i, swaps[0].j);
      ExchangedKeepsPermutation(Exchange(s, swaps[0].i, swaps[0].j), n, swaps[1..]);
    }
  }

  /**
   * revealIndices.sort(() => Math.random() - 0.5) (script.js:176): the sort
   * exchanges entries in place; which exchanges it makes depends on the
   * engine and the draws, so they are a parameter.
   */
  method Shuffle(a: array<nat>, swaps: seq<Swap>)
    requires SwapsWithin(swaps, a.Length)
    modifies a
    ensures a[..] == Exchanged(old(a[..]), swaps)
  {
    var k := 0;
    while k < |swaps|
      invariant 0 <= k <= |swaps|
      invariant Exchanged(a[..], swaps[k..]) == Exchanged(old(a[..]), swaps)
    {
      var sw := swaps[k];
      assert swaps[k..][1..] == swaps[k + 1..];
      a[sw.i], a[sw.j] := a[sw.j], a[sw.i];
      k := k + 1;
    }
    assert swaps[k..] == [];
  }

  /** Math.floor(progress * totalChars) (script.js:189): how many characters are back. */
  function RevealCount(progress: real, n: nat): (k: int)
    requires 0.0 <= progress <= 1.0
    ensures 0 <= k <= n
    ensures progress == 1.0 ==> k == n
  {
    assert 0.0 <= progress * n as real <= 1.0 * n as real;
    (progress * n as real).Floor
  }

  /** Later in the animation, never fewer characters are back. */
  lemma RevealCountMonotone(p: real, q: real, n: nat)
    requires 0.0 <= p <= q <= 1.0
    ensures RevealCount(p, n) <= RevealCount(q, n)
  {
    var a, b := p * n as real, q * n as real;
    assert a <= b;
    assert a.Floor as real <= a && b < b.Floor as real + 1.0;
  }

  /** The heading's state: the original characters, the reveal order and the shown characters. */
  class ScrambleText {
    /** originalText.split('') (script.js:153-154). */
    const chars: seq<char>
    /** The shuffled reveal order. */
    const revealIndices: array<nat>
    /** currentText, updated in place. */
    const currentText: array<char>
    /** The heading's textContent. */
    var shown: seq<char>

    ghost predicate Valid()
      reads this, revealIndices, currentText
    {
      && currentText.Length == |chars|
      && IsPermutation(revealIndices[..], |chars|)
      && forall p :: 0 <= p < |chars| ==> Masks(currentText[p], chars[p])
    }

    /**
     * The set-up of script.js:153-176: a stand-in for every character, drawn
     * with draws[p], and the indices 0 .. n-1 shuffled by the sort's exchanges.
     * The heading still shows the original text.
     */
    constructor (text: seq<char>, draws: seq<Draw>, swaps: seq<Swap>)
      requires |draws| == |text| && SwapsWithin(swaps, |text|)
      ensures Valid() && fresh(revealIndices) && fresh(currentText)
      ensures chars == text && shown == text
      ensures forall p :: 0 <= p < |text| ==> currentText[p] == Disguise(text[p], draws[p])
      ensures revealIndices[..] == Exchanged(Range(|text|), swaps)
    {
      var disguised := new char[|text|];
      for p := 0 to |text|
        invariant forall q :: 0 <= q < p ==> disguised[q] == Disguise(text[q], draws[q])
      {
        disguised[p] := Disguise(text[p], draws[p]);
      }
      var order := new nat[|text|];
      for p := 0 to |text|
        invariant forall q :: 0 <= q < p ==> order[q] == q
        invariant forall q :: 0 <= q < |text| ==> disguised[q] == Disguise(text[q], draws[q])
      {
        order[p] := p;
      }
      assert order[..] == Range(|text|);
      Shuffle(order, swaps);
      RangeIsPermutation(|text|);
      ExchangedKeepsPermutation(Range(|text|), |text|, swaps);
      chars := text;
      revealIndices := order;
      currentText := disguised;
      shown := text;
    }

    /**
     * One update of the animation (script.js:186-210): with k = RevealCount
     * characters due, the characters at the first k reveal positions are
     * restored, every other letter, digit or CJK character gets a new
     * stand-in drawn with draws[i], and the heading shows the result.
     */
    method OnUpdate(progress: real, draws: seq<Draw>)
      requires Valid() && 0.0 <= progress <= 1.0 && |draws| == |chars|
      modifies currentText, this`shown
      ensures Valid()
      ensures forall i :: 0 <= i < RevealCount(progress, |chars|) ==>
        currentText[revealIndices[i]] == chars[revealIndices[i]]
      ensures forall i :: RevealCount(progress, |chars|) <= i < |chars| ==>
        currentText[revealIndices[i]] == Disguise(chars[revealIndices[i]], draws[i])
      ensures progress == 1.0 ==> currentText[..] == chars
      ensures shown == currentText[..]
    {
      PermutationCovers(revealIndices[..], |chars|);
      var total := |chars|;
      var k := RevealCount(progress, total);
      for i := 0 to k
        invariant forall p :: 0 <= p < total ==> Masks(currentText[p], chars[p])
        invariant forall i' :: 0 <= i' < i ==> currentText[revealIndices[i']] == chars[revealIndices[i']]
      {
        var index := revealIndices[i];
        currentText[index] := chars[index];
      }
      for i := k to total
        invariant forall p :: 0 <= p < total ==> Masks(currentText[p], chars[p])
        invariant forall i' :: 0 <= i' < k ==> currentText[revealIndices[i']] == chars[revealIndices[i']]
        invariant forall i' :: k <= i' < i ==>
          currentText[revealIndices[i']] == Disguise(chars[revealIndices[i']], draws[i'])
      {
        var index := revealIndices[i];
        if IsCjk(chars[index]) {
          currentText[index] := RandomCjk(draws[i]);
        } else if IsAlnum(chars[index]) {
          currentText[index] := RandomAlnum(draws[i]);
        }
      }
      if progress == 1.0 {
        forall p | 0 <= p < total
          ensures currentText[p] == chars[p]
        {
          assert p in revealIndices[..];
          var i :| 0 <= i < total && revealIndices[i] == p;
        }
      }
      shown := currentText[..];
    }

    /** onComplete (script.js:211-214): the heading shows the original text. */
    method OnComplete()
      modifies this`shown
      ensures shown == chars
    {
      shown := chars;
    }
  }
}
