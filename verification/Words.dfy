/** Sorted lists of words, and which of their words begin with which. Each word of a list is written with the
    number of characters it shares with the next one, so that comparing neighbours is enough. */
module Words {

  datatype Word<T> = Word(text: string, shared: nat, entry: T)

  /** `strcmp` order. */
  predicate Below(a: string, b: string)
  {
    b != [] && (a == [] || a[0] < b[0] || (a[0] == b[0] && Below(a[1..], b[1..])))
  }

  lemma {:induction false} BelowTransitive(a: string, b: string, c: string)
    requires Below(a, b) && Below(b, c)
    ensures Below(a, c)
  {
    if a != [] && a[0] == b[0] == c[0] {
      BelowTransitive(a[1..], b[1..], c[1..]);
    }
  }

  lemma {:induction false} BelowIsNoExtension(a: string, b: string)
    requires Below(a, b)
    ensures !(b <= a)
  {
    if a != [] && a[0] == b[0] {
      BelowIsNoExtension(a[1..], b[1..]);
    }
  }

  /** What begins a later word begins every word between. */
  lemma {:induction false} PrefixBetween(w: string, b: string, c: string)
    requires Below(w, b) && Below(b, c) && w <= c
    ensures w <= b
  {
    if w != [] {
      assert w[0] == c[..|w|][0] == c[0];
      assert w[1..] == c[..|w|][1..] == c[1..][..|w| - 1];
      PrefixBetween(w[1..], b[1..], c[1..]);
      assert b == [b[0]] + b[1..] && w == [w[0]] + w[1..];
    }
  }

  /** The words part where both go on, the first with the smaller character. */
  predicate Apart<T>(r: Word<T>, s: Word<T>)
  {
    && r.shared < |r.text| && r.shared < |s.text|
    && r.text[..r.shared] == s.text[..r.shared] && r.text[r.shared] < s.text[r.shared]
  }

  /** The next word begins with this one, and the word after that one does not. */
  predicate Opens<T>(r: Word<T>, s: Word<T>)
  {
    r.shared == |r.text| < |s.text| && r.text <= s.text && s.shared < |r.text|
  }

  lemma {:induction false} SharingIsBelow(a: string, b: string, k: nat)
    requires k <= |a| && k < |b| && a[..k] == b[..k] && (k < |a| ==> a[k] < b[k])
    ensures Below(a, b)
  {
    if k > 0 {
      assert a[0] == a[..k][0] == b[..k][0] == b[0];
      assert a[1..][..k - 1] == a[..k][1..] && b[1..][..k - 1] == b[..k][1..];
      SharingIsBelow(a[1..], b[1..], k - 1);
    }
  }

  /** From position `m` on, every two neighbours are apart. */
  predicate Rising<T>(t: seq<Word<T>>, m: nat)
    decreases |t| - m
  {
    m + 1 < |t| ==> Apart(t[m], t[m + 1]) && Rising(t, m + 1)
  }

  /** Neighbours may stand so: apart, or opening in an accepted way. */
  ghost predicate Links<T>(r: Word<T>, s: Word<T>, accepts: (Word<T>, Word<T>) -> bool)
  {
    Apart(r, s) || (Opens(r, s) && accepts(r, s))
  }

  ghost predicate Linked<T>(t: seq<Word<T>>, accepts: (Word<T>, Word<T>) -> bool)
  {
    forall m: nat, n: nat :: n == m + 1 < |t| ==> Links(t[m], t[n], accepts)
  }

  lemma {:induction false} RisingFrom<T>(t: seq<Word<T>>, m: nat, k: nat)
    requires Rising(t, m) && m <= k && k + 1 < |t|
    ensures Apart(t[k], t[k + 1])
    decreases k - m
  {
    if m < k {
      RisingFrom(t, m + 1, k);
    }
  }

  lemma RisingLinks<T>(t: seq<Word<T>>, accepts: (Word<T>, Word<T>) -> bool)
    requires Rising(t, 0)
    ensures Linked(t, accepts)
  {
    forall m: nat, n: nat | n == m + 1 < |t|
      ensures Links(t[m], t[n], accepts)
    {
      RisingFrom(t, 0, m);
    }
  }

  lemma LinkedConcat<T>(a: seq<Word<T>>, b: seq<Word<T>>, accepts: (Word<T>, Word<T>) -> bool)
    requires a != [] && b != [] && Linked(a, accepts) && Linked(b, accepts) && Links(a[|a| - 1], b[0], accepts)
    ensures Linked(a + b, accepts)
  {
  }

  lemma LinksAreBelow<T>(r: Word<T>, s: Word<T>, accepts: (Word<T>, Word<T>) -> bool)
    requires Links(r, s, accepts)
    ensures Below(r.text, s.text)
  {
    SharingIsBelow(r.text, s.text, r.shared);
  }

  lemma {:induction false} LinkedIsSorted<T>(t: seq<Word<T>>, accepts: (Word<T>, Word<T>) -> bool, i: nat, j: nat)
    requires Linked(t, accepts) && i < j < |t|
    ensures Below(t[i].text, t[j].text)
    decreases j
  {
    LinksAreBelow(t[j - 1], t[j], accepts);
    if i < j - 1 {
      LinkedIsSorted(t, accepts, i, j - 1);
      BelowTransitive(t[i].text, t[j - 1].text, t[j].text);
    }
  }

  /** After what begins with the opening word, nothing does. */
  lemma OpeningEnds<T>(r: Word<T>, s: Word<T>, u: Word<T>, accepts: (Word<T>, Word<T>) -> bool)
    requires Opens(r, s) && Links(s, u, accepts)
    ensures !(r.text <= u.text)
  {
  }

  /** In a linked list only the word right before it can begin a word, and then they are accepted neighbours. */
  lemma OnlyNeighbourBegins<T>(t: seq<Word<T>>, accepts: (Word<T>, Word<T>) -> bool, i: nat, j: nat)
    requires Linked(t, accepts) && i < |t| && j < |t| && i != j && t[i].text <= t[j].text
    ensures j == i + 1 && accepts(t[i], t[j])
  {
    if j < i {
      LinkedIsSorted(t, accepts, j, i);
      BelowIsNoExtension(t[j].text, t[i].text);
    } else {
      NextBegins(t, accepts, i, j, i + 1);
      assert Links(t[i], t[i + 1], accepts);
      if j > i + 1 {
        NextBegins(t, accepts, i, j, i + 2);
        OpeningEnds(t[i], t[i + 1], t[i + 2], accepts);
      }
    }
  }

  lemma NextBegins<T>(t: seq<Word<T>>, accepts: (Word<T>, Word<T>) -> bool, i: nat, j: nat, k: nat)
    requires Linked(t, accepts) && i < k <= j < |t| && t[i].text <= t[j].text
    ensures t[i].text <= t[k].text
  {
    LinkedIsSorted(t, accepts, i, k);
    if k < j {
      LinkedIsSorted(t, accepts, k, j);
      PrefixBetween(t[i].text, t[k].text, t[j].text);
    }
  }
}
