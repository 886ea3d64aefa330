/**
 The tables and the hash of keywordhash.h put together, and what is to be checked of each
 keyword for them to be sound.
 */
module SqliteKeywords {
  import opened KeywordSearch
  import opened KeywordTables

  /** The exclusive or that is reduced to the hash value, on int words. */
  function HashWord(first: bv32, last: bv32, n: bv32): bv32 {
    (first * 4) ^ (last * 3) ^ n
  }

  /** The hash value; a length is an int, so none reaches 0x8000_0000. */
  function HashOf(first: Byte, last: Byte, n: nat): nat {
    if n < 0x8000_0000 then HashWord(first as bv32, last as bv32, n as bv32) as nat % 127 else 0
  }

  lemma HashOfWords(first: bv32, last: bv32, n: bv32)
    requires first as nat < 256 && last as nat < 256 && n as nat < 0x8000_0000
    ensures HashOf(first as nat, last as nat, n as nat) == HashWord(first, last, n) as nat % 127
  {
    assert (first as nat) as bv32 == first;
    assert (last as nat) as bv32 == last;
    assert (n as nat) as bv32 == n;
  }

  function Sqlite(): Tables {
    Tables(
      seq(N_TEXT, i requires 0 <= i < N_TEXT => KWText(i)),
      seq(127, i requires 0 <= i < 127 => KWHash(i)),
      seq(N_KEYWORD, i requires 0 <= i < N_KEYWORD => KWNext(i)),
      seq(N_KEYWORD, i requires 0 <= i < N_KEYWORD => KWLen(i)),
      seq(N_KEYWORD, i requires 0 <= i < N_KEYWORD => KWOffset(i)),
      seq(N_KEYWORD, i requires 0 <= i < N_KEYWORD => KWCode(i)),
      seq(N_KEYWORD, i requires 0 <= i < N_KEYWORD => KWWord(i)),
      HashOf)
  }

  /** Filed, with the first letter, the last letter and the length given as the words that are hashed. */
  predicate FiledUnder(t: Tables, k: nat, word: string, first: bv32, last: bv32, n: bv32, h: nat) {
    && h < |t.hash| && k < |t.word|
    && word == t.word[k]
    && |word| == n as nat && 2 <= |word| < 20
    && Upper(word[0]) && CharMap(word[0] as nat) == first as nat
    && Upper(word[|word| - 1]) && CharMap(word[|word| - 1] as nat) == last as nat
    && HashWord(first, last, n) as nat % 127 == h
    && OnChain(t.next, t.hash[h] as int - 1, k)
  }

  ghost predicate Reachable(t: Tables, k: nat) {
    exists word, first, last, n, h :: FiledUnder(t, k, word, first, last, n, h)
  }

  lemma KeyOfWords(first: bv32, last: bv32, n: bv32)
    requires first as nat < 256 && last as nat < 256 && n as nat < 0x8000_0000
    ensures Sqlite().key(first as nat, last as nat, n as nat) == HashWord(first, last, n) as nat % 127
  {
    HashOfWords(first, last, n);
  }

  lemma FiledUnderIsFiled(t: Tables, k: nat, word: string, first: bv32, last: bv32, n: bv32, h: nat)
    requires FiledUnder(t, k, word, first, last, n, h)
    requires t.key(first as nat, last as nat, n as nat) == h
    ensures Filed(t, k)
  {
  }

  lemma ReachableIsFiled(k: nat)
    requires Reachable(Sqlite(), k)
    ensures Filed(Sqlite(), k)
  {
    var word, first, last, n, h :| FiledUnder(Sqlite(), k, word, first, last, n, h);
    KeyOfWords(first, last, n);
    FiledUnderIsFiled(Sqlite(), k, word, first, last, n, h);
  }
}
