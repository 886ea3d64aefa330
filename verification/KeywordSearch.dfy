/**
 The keyword recogniser of keywordhash.h over any tables: a hash of the first letter, the
 last letter and the length selects a chain of keywords, which is searched from its highest
 index down. For tables that are sound it agrees with a search through all keywords in turn.
 */
module KeywordSearch {
  import opened Wrappers

  type Byte = x: nat | x < 256

  const TK_ID: nat := 59

  /**
   zKWText, aKWHash, aKWNext, aKWLen, aKWOffset, aKWCode, the keywords by name, and the
   hash value made of a first letter, a last letter and a length.
   */
  datatype Tables = Tables(
    text: string, hash: seq<nat>, next: seq<nat>, len: seq<nat>, offset: seq<nat>, code: seq<nat>, word: seq<string>,
    key: (Byte, Byte, nat) -> nat)

  // ----- The plain search

  function UpperOf(b: Byte): Byte {
    if 'a' as nat <= b <= 'z' as nat then b - 32 else b
  }

  /** The bytes spell the keyword, ignoring the case of ASCII letters. */
  predicate SpelledAs(z: seq<Byte>, word: string) {
    && |z| == |word|
    && forall j | 0 <= j < |z| :: UpperOf(z[j]) == word[j] as nat
  }

  /** The first keyword from k on that the bytes spell. */
  function LinearSearch(word: seq<string>, z: seq<Byte>, k: nat): (found: Option<nat>)
    requires k <= |word|
    ensures found.Some? ==> k <= found.value < |word| && SpelledAs(z, word[found.value])
    ensures found.None? ==> forall n | k <= n < |word| :: !SpelledAs(z, word[n])
    decreases |word| - k
  {
    if k == |word| then None
    else if SpelledAs(z, word[k]) then Some(k)
    else LinearSearch(word, z, k + 1)
  }

  /** The code of the keyword the bytes spell; other if they spell none. */
  function CodeOf(t: Tables, z: seq<Byte>, other: nat): nat
    requires |t.word| == |t.code|
  {
    var found := LinearSearch(t.word, z, 0);
    if found.Some? then t.code[found.value] else other
  }

  // ----- The tables

  /** charMap on ASCII machines: upper-case letters to lower case. */
  function CharMap(b: Byte): Byte {
    if 'A' as nat <= b <= 'Z' as nat then b + 32 else b
  }

  predicate Upper(c: char) {
    'A' <= c <= 'Z'
  }

  /** k is on the chain that starts at i. */
  predicate OnChain(next: seq<nat>, i: int, k: nat)
    decreases i
  {
    0 <= i < |next| && (i == k || (next[i] <= i && OnChain(next, next[i] as int - 1, k)))
  }

  /** Two words that already differ in length, in the second letter or in the last but one. */
  predicate Apart(word: string, other: string) {
    || |word| != |other|
    || (|word| >= 2 && (word[1] != other[1] || word[|word| - 2] != other[|word| - 2]))
  }

  predicate NoTwinFrom(next: seq<nat>, words: seq<string>, i: int, word: string)
    requires |next| == |words|
    decreases i
  {
    0 <= i < |next| ==>
      Apart(words[i], word) && (next[i] <= i ==> NoTwinFrom(next, words, next[i] as int - 1, word))
  }

  /** The sizes of the tables, chains that descend, and no keyword with the code of an identifier. */
  ghost predicate Shape(t: Tables) {
    && (forall first, last, n :: t.key(first, last, n) < |t.hash|)
    && |t.next| == |t.len| == |t.offset| == |t.code| == |t.word|
    && (forall h | 0 <= h < |t.hash| :: t.hash[h] <= |t.next|)
    && (forall k | 0 <= k < |t.next| :: t.next[k] <= k && t.code[k] != TK_ID)
    && (forall i | 0 <= i < |t.text| :: Upper(t.text[i]) || t.text[i] == '_')
  }

  predicate Spells(text: string, offset: nat, word: string) {
    offset + |word| <= |text| && forall j | 0 <= j < |word| :: text[offset + j] == word[j]
  }

  /** The text at the offset of keyword k is its name, and no later keyword on its chain has that name. */
  predicate Spelled(t: Tables, k: nat) {
    && |t.next| == |t.len| == |t.offset| == |t.word| && k < |t.word|
    && |t.word[k]| == t.len[k] && Spells(t.text, t.offset[k], t.word[k])
    && NoTwinFrom(t.next, t.word, t.next[k] as int - 1, t.word[k])
  }

  function Head(t: Tables, first: Byte, last: Byte, n: nat): int {
    var h := t.key(first, last, n);
    if h < |t.hash| then t.hash[h] as int - 1 else -1
  }

  /** Keyword k hangs on the chain its letters and its length hash to. */
  predicate Filed(t: Tables, k: nat) {
    && k < |t.word|
    && var word := t.word[k];
       && |word| >= 2 && Upper(word[0]) && Upper(word[|word| - 1])
       && OnChain(t.next, Head(t, CharMap(word[0] as nat), CharMap(word[|word| - 1] as nat), |word|), k)
  }

  ghost predicate Sound(t: Tables) {
    Shape(t) && forall k | 0 <= k < |t.word| :: Spelled(t, k) && Filed(t, k)
  }

  // ----- What the recogniser computes

  /** z & ~0x20 on a char, which is signed: bytes from 0x80 up are negative. */
  function Masked(b: Byte): int {
    (if (b / 32) % 2 == 1 then b - 32 else b) - (if b < 128 then 0 else 256)
  }

  /** The bytes with an underscore for every DEL, which is what the mask makes of it. */
  function Normal(z: seq<Byte>): (r: seq<Byte>)
    ensures |r| == |z|
    ensures forall j | 0 <= j < |z| :: r[j] == if z[j] == 127 then 95 else z[j]
  {
    seq(|z|, j requires 0 <= j < |z| => if z[j] == 127 then 95 else z[j])
  }

  lemma MaskedMatches(b: Byte, c: char)
    requires Upper(c) || c == '_'
    ensures Masked(b) == c as int <==> UpperOf(if b == 127 then 95 else b) == c as nat
  {
  }

  /** The letter loop runs to the end on keyword i. */
  predicate ReadAs(t: Tables, z: seq<Byte>, i: nat)
    requires |t.len| == |t.offset| && i < |t.len| && t.offset[i] + t.len[i] <= |t.text|
  {
    && t.len[i] == |z|
    && forall j | 0 <= j < |z| :: Masked(z[j]) == t.text[t.offset[i] + j] as int
  }

  lemma ReadAsMeans(t: Tables, z: seq<Byte>, i: nat)
    requires Shape(t) && i < |t.word| && Spelled(t, i)
    ensures ReadAs(t, z, i) <==> SpelledAs(Normal(z), t.word[i])
  {
    if |z| == t.len[i] {
      forall j | 0 <= j < |z|
        ensures Masked(z[j]) == t.text[t.offset[i] + j] as int <==> UpperOf(Normal(z)[j]) == t.word[i][j] as nat
      {
        MaskedMatches(z[j], t.text[t.offset[i] + j]);
      }
    }
  }

  /** The start of the chain searched for these bytes. */
  function Chain(t: Tables, z: seq<Byte>): int
    requires |z| >= 2
  {
    Head(t, CharMap(z[0]), CharMap(z[|z| - 1]), |z|)
  }

  /** The first keyword down the chain from i that the bytes are read as. */
  ghost function ChainSearch(t: Tables, z: seq<Byte>, i: int): (found: Option<nat>)
    requires Sound(t) && i < |t.next|
    ensures found.Some? ==> found.value < |t.next| && Spelled(t, found.value) && ReadAs(t, z, found.value)
    decreases i
  {
    if i < 0 then None
    else
      assert Spelled(t, i);
      if ReadAs(t, z, i) then Some(i)
      else ChainSearch(t, z, t.next[i] as int - 1)
  }

  // ----- Why the two searches agree

  /** The hash ignores case: bytes that are read as a word have the letters of the word. */
  lemma LettersMatch(z: seq<Byte>, word: string)
    requires SpelledAs(Normal(z), word) && |word| >= 2
    requires Upper(word[0]) && Upper(word[|word| - 1])
    ensures |z| == |word|
    ensures CharMap(z[0]) == CharMap(word[0] as nat)
    ensures CharMap(z[|z| - 1]) == CharMap(word[|word| - 1] as nat)
  {
  }

  /** Bytes that are read as a keyword hash to the chain it hangs on. */
  lemma MatchHash(t: Tables, z: seq<Byte>, k: nat)
    requires Sound(t) && k < |t.word| && SpelledAs(Normal(z), t.word[k])
    ensures |z| >= 2 && OnChain(t.next, Chain(t, z), k)
  {
    assert Filed(t, k);
    LettersMatch(z, t.word[k]);
  }

  /** A word without a twin down the chain is not the name of any keyword there. */
  lemma {:induction false} ApartFromChain(t: Tables, i: int, word: string, k: nat)
    requires Shape(t) && NoTwinFrom(t.next, t.word, i, word) && OnChain(t.next, i, k)
    ensures k < |t.word| && Apart(t.word[k], word)
    decreases i
  {
    if i != k {
      ApartFromChain(t, t.next[i] as int - 1, word, k);
    }
  }

  lemma NotApart(z: seq<Byte>, word: string, other: string)
    requires SpelledAs(z, word) && SpelledAs(z, other)
    ensures !Apart(word, other)
  {
  }

  lemma NoTwin(t: Tables, z: seq<Byte>, i: nat, k: nat)
    requires Sound(t) && i < |t.word| && k < |t.word| && OnChain(t.next, i, k)
    requires SpelledAs(z, t.word[i]) && SpelledAs(z, t.word[k])
    ensures i == k
  {
    if i != k {
      assert Spelled(t, i);
      ApartFromChain(t, t.next[i] as int - 1, t.word[i], k);
      NotApart(z, t.word[k], t.word[i]);
    }
  }

  /** If some keyword on the chain is read, the search down the chain finds it and no other. */
  lemma {:induction false} ChainSearchFinds(t: Tables, z: seq<Byte>, i: int, k: nat)
    requires Sound(t) && i < |t.next| && k < |t.word| && OnChain(t.next, i, k)
    requires SpelledAs(Normal(z), t.word[k])
    ensures ChainSearch(t, z, i) == Some(k)
    decreases i
  {
    assert Spelled(t, i);
    ReadAsMeans(t, z, i);
    if ReadAs(t, z, i) {
      NoTwin(t, Normal(z), i, k);
    } else {
      ChainSearchFinds(t, z, t.next[i] as int - 1, k);
    }
  }

  /** The hashed search and the plain search find the same keyword, or both find none. */
  lemma SearchesAgree(t: Tables, z: seq<Byte>)
    requires Sound(t)
    ensures |z| < 2 ==> LinearSearch(t.word, Normal(z), 0) == None
    ensures |z| >= 2 ==> Chain(t, z) < |t.next|
                         && LinearSearch(t.word, Normal(z), 0) == ChainSearch(t, z, Chain(t, z))
  {
    var found := LinearSearch(t.word, Normal(z), 0);
    if found.Some? {
      MatchHash(t, z, found.value);
      ChainSearchFinds(t, z, Chain(t, z), found.value);
    } else if |z| >= 2 && ChainSearch(t, z, Chain(t, z)).Some? {
      var k := ChainSearch(t, z, Chain(t, z)).value;
      assert Spelled(t, k);
      ReadAsMeans(t, z, k);
    }
  }

  // ----- The recogniser

  /** The inner loop of keywordCode: how many letters of keyword i the bytes match. */
  method MatchLetters(t: Tables, z: seq<Byte>, i: nat) returns (j: nat)
    requires Spelled(t, i) && t.len[i] == |z|
    ensures j < |z| <==> !ReadAs(t, z, i)
  {
    j := 0;
    var zKW := t.offset[i];
    while j < |z| && Masked(z[j]) == t.text[zKW + j] as int
      invariant j <= |z|
      invariant forall m | 0 <= m < j :: Masked(z[m]) == t.text[zKW + m] as int
    {
      j := j + 1;
    }
  }

  /** The outer loop of keywordCode: down the chain to the keyword that the bytes are read as. */
  method WalkChain(t: Tables, z: seq<Byte>, start: int) returns (i: int)
    requires Sound(t) && -1 <= start < |t.next|
    ensures -1 <= i < |t.next|
    ensures ChainSearch(t, z, start) == if i < 0 then None else Some(i)
  {
    i := start;
    while i >= 0
      invariant -1 <= i < |t.next| && ChainSearch(t, z, i) == ChainSearch(t, z, start)
      decreases i
    {
      assert Spelled(t, i);
      if t.len[i] != |z| {
        i := t.next[i] as int - 1;
        continue;
      }
      var j := MatchLetters(t, z, i);
      if j < |z| {
        i := t.next[i] as int - 1;
        continue;
      }
      break;
    }
  }

  /** keywordCode; pType is what the caller's cell holds, code what it holds after. */
  method KeywordCode(t: Tables, z: seq<Byte>, pType: nat) returns (n: nat, code: nat)
    requires Sound(t)
    ensures n == |z|
    ensures code == CodeOf(t, Normal(z), pType)
  {
    n, code := |z|, pType;
    SearchesAgree(t, z);
    if n >= 2 {
      var h := t.key(CharMap(z[0]), CharMap(z[n - 1]), n);
      var i := WalkChain(t, z, t.hash[h] as int - 1);
      if i >= 0 {
        code := t.code[i];
      }
    }
  }

  // ----- How far case-insensitivity goes

  /** Without a DEL among the bytes, the mask compares letters ignoring case. */
  lemma NormalOfPlain(z: seq<Byte>)
    requires 127 !in z
    ensures Normal(z) == z
  {
  }

  /** No keyword is spelled with a DEL. */
  lemma DelSpellsNothing(t: Tables, z: seq<Byte>)
    requires Sound(t) && 127 in z
    ensures LinearSearch(t.word, z, 0) == None
  {
    var j :| 0 <= j < |z| && z[j] == 127;
    forall k | 0 <= k < |t.word|
      ensures !SpelledAs(z, t.word[k])
    {
      assert Spelled(t, k);
      assert |z| == |t.word[k]| ==> t.word[k][j] == t.text[t.offset[k] + j];
    }
  }

  /** Each keyword is found as itself: bytes that spell keyword k spell no other. */
  lemma FoundAsItself(t: Tables, z: seq<Byte>, k: nat)
    requires Sound(t) && k < |t.word| && SpelledAs(z, t.word[k])
    ensures 127 !in z && LinearSearch(t.word, z, 0) == Some(k)
  {
    if 127 in z {
      DelSpellsNothing(t, z);
      assert false;
    }
    NormalOfPlain(z);
    MatchHash(t, z, k);
    ChainSearchFinds(t, z, Chain(t, z), k);
    SearchesAgree(t, z);
  }
}
