/**
 The keyword functions of the repository: the recogniser run on its own tables, and the
 functions that list the keywords.
 */
module Keywords {
  import opened Wrappers
  import opened KeywordTables
  import opened KeywordSearch
  import opened KeywordFiling
  import opened KeywordTokens
  import opened SqliteKeywords

  const SQLITE_OK: int := 0
  const SQLITE_ERROR: int := 1

  /** The tables of the repository are sound. */
  lemma SqliteSound()
    ensures Sound(Sqlite())
  {
    forall k | 0 <= k < |Sqlite().word|
      ensures Spelled(Sqlite(), k) && Filed(Sqlite(), k)
    {
      AllSpelled(k);
      AllReachable(k);
      ReachableIsFiled(k);
    }
  }

  // ----- Where case-insensitivity ends

  /** A DEL where one of the three timestamp keywords has its underscore. */
  predicate DelForUnderscore(z: seq<Byte>) {
    || SpelledAs(z, "CURRENT\U{7F}DATE")
    || SpelledAs(z, "CURRENT\U{7F}TIMESTAMP")
    || SpelledAs(z, "CURRENT\U{7F}TIME")
  }

  /** The stretches of text that cross an underscore. */
  lemma Underscored(k: nat)
    requires k < N_KEYWORD
    requires KWOffset(k) <= 282 < KWOffset(k) + KWLen(k) || KWOffset(k) <= 445 < KWOffset(k) + KWLen(k)
    ensures k == 69 || k == 102 || k == 103
  {
  }

  /** A keyword with an underscore is one of the three. */
  lemma UnderscoreInWord(k: nat, j: nat)
    requires k < N_KEYWORD && j < |Sqlite().word[k]| && Sqlite().word[k][j] == '_'
    ensures k == 69 || k == 102 || k == 103
  {
    AllSpelled(k);
    assert Sqlite().text[Sqlite().offset[k] + j] == '_';
    Underscored(k);
  }

  lemma Timestamps()
    ensures Sqlite().word[69] == "CURRENT_DATE"
    ensures Sqlite().word[102] == "CURRENT_TIMESTAMP"
    ensures Sqlite().word[103] == "CURRENT_TIME"
  {
  }

  lemma DelReadAsUnderscore(z: seq<Byte>, word: string, del: string)
    requires |del| == |word| > 7 && word[7] == '_' && del == word[7 := '\U{7F}']
    requires forall j | 0 <= j < |word| && j != 7 :: word[j] != '_' && word[j] != '\U{7F}'
    ensures 127 in z && SpelledAs(Normal(z), word) <==> SpelledAs(z, del)
  {
    if SpelledAs(z, del) {
      assert z[7] == 127;
      forall j | 0 <= j < |z|
        ensures UpperOf(Normal(z)[j]) == word[j] as nat
      {
        assert UpperOf(z[j]) == del[j] as nat;
      }
    }
    if 127 in z && SpelledAs(Normal(z), word) {
      var i :| 0 <= i < |z| && z[i] == 127;
      assert UpperOf(Normal(z)[i]) == word[i] as nat;
      forall j | 0 <= j < |z|
        ensures UpperOf(z[j]) == del[j] as nat
      {
        assert UpperOf(Normal(z)[j]) == word[j] as nat;
      }
    }
  }

  /** A DEL is misread exactly where it stands for the underscore of a keyword. */
  lemma MisreadExactly(z: seq<Byte>)
    ensures DelForUnderscore(z) <==> 127 in z && LinearSearch(Sqlite().word, Normal(z), 0).Some?
  {
    Timestamps();
    DelReadAsUnderscore(z, "CURRENT_DATE", "CURRENT\U{7F}DATE");
    DelReadAsUnderscore(z, "CURRENT_TIMESTAMP", "CURRENT\U{7F}TIMESTAMP");
    DelReadAsUnderscore(z, "CURRENT_TIME", "CURRENT\U{7F}TIME");
    var found := LinearSearch(Sqlite().word, Normal(z), 0);
    if 127 in z && found.Some? {
      var j :| 0 <= j < |z| && z[j] == 127;
      assert UpperOf(Normal(z)[j]) == 95;
      UnderscoreInWord(found.value, j);
    }
  }

  // ----- The token of a spelling

  /** The bytes are the name, each letter in either case. */
  predicate Reads(z: seq<Byte>, name: string) {
    && |z| == |name|
    && forall j | 0 <= j < |z| :: z[j] == name[j] as nat || ('A' <= name[j] <= 'Z' && z[j] == name[j] as nat + 32)
  }

  lemma ReadsIsSpelled(z: seq<Byte>, k: nat)
    requires k < N_KEYWORD
    ensures Reads(z, Sqlite().word[k]) <==> SpelledAs(z, Sqlite().word[k])
  {
    AllSpelled(k);
    SqliteSound();
    var word := Sqlite().word[k];
    forall j | 0 <= j < |word|
      ensures Upper(word[j]) || word[j] == '_'
    {
      assert Sqlite().text[Sqlite().offset[k] + j] == word[j];
    }
  }

  /** A keyword of the generator's list is found as the keyword of the tables with its name and token. */
  lemma ReadAsToken(z: seq<Byte>, i: nat)
    requires i < 136 && Reads(z, Keyword(i).0)
    ensures CodeOf(Sqlite(), z, TK_ID) == CodeOf(Sqlite(), Normal(z), TK_ID) == Keyword(i).1
  {
    AllGenerated(i);
    var k := PlaceOf(i);
    assert Sqlite().word[k] == Keyword(i).0 && Sqlite().code[k] == Keyword(i).1;
    SqliteSound();
    ReadsIsSpelled(z, k);
    FoundAsItself(Sqlite(), z, k);
    NormalOfPlain(z);
  }

  /** Nothing else is a keyword. */
  lemma ReadAsNothing(z: seq<Byte>)
    requires forall i | 0 <= i < 136 :: !Reads(z, Keyword(i).0)
    ensures CodeOf(Sqlite(), z, TK_ID) == 59
  {
    forall k | 0 <= k < N_KEYWORD
      ensures !SpelledAs(z, Sqlite().word[k])
    {
      var i := OriginOf(k);
      AllGenerated(i);
      AllGenerated(k);
      assert Sqlite().word[k] == Keyword(i).0;
      ReadsIsSpelled(z, k);
    }
  }

  /** With a DEL for the underscore the three timestamps are read all the same. */
  lemma DelReadAsToken(z: seq<Byte>)
    requires DelForUnderscore(z)
    ensures CodeOf(Sqlite(), Normal(z), TK_ID) == 90
    ensures forall i | 0 <= i < 136 :: !Reads(z, Keyword(i).0)
  {
    DelReadAsUnderscore(z, "CURRENT_DATE", "CURRENT\U{7F}DATE");
    DelReadAsUnderscore(z, "CURRENT_TIMESTAMP", "CURRENT\U{7F}TIMESTAMP");
    DelReadAsUnderscore(z, "CURRENT_TIME", "CURRENT\U{7F}TIME");
    Timestamps();
    SqliteSound();
    assert Sqlite().code[69] == 90 && Sqlite().code[102] == 90 && Sqlite().code[103] == 90;
    var k := if SpelledAs(z, "CURRENT\U{7F}DATE") then 69 else if SpelledAs(z, "CURRENT\U{7F}TIMESTAMP") then 102 else 103;
    FoundAsItself(Sqlite(), Normal(z), k);
    forall i | 0 <= i < 136
      ensures !Reads(z, Keyword(i).0)
    {
      if Reads(z, Keyword(i).0) {
        AllGenerated(i);
        ReadsIsSpelled(z, PlaceOf(i));
        FoundAsItself(Sqlite(), z, PlaceOf(i));
      }
    }
  }

  // ----- The entry points

  /** The result for a byte string that is no such spelling is that of the plain search, and only then. */
  method Sqlite3KeywordCode(z: seq<Byte>) returns (id: nat)
    requires |z| < 0x8000_0000
    ensures id == CodeOf(Sqlite(), Normal(z), TK_ID)
    ensures id == CodeOf(Sqlite(), z, TK_ID) <==> !DelForUnderscore(z)
    ensures forall i | 0 <= i < 136 && Reads(z, Keyword(i).0) :: id == Keyword(i).1
    ensures (forall i | 0 <= i < 136 :: !Reads(z, Keyword(i).0)) ==> id == if DelForUnderscore(z) then 90 else 59
  {
    forall i | 0 <= i < 136 && Reads(z, Keyword(i).0)
      ensures CodeOf(Sqlite(), Normal(z), TK_ID) == Keyword(i).1
    {
      ReadAsToken(z, i);
    }
    if DelForUnderscore(z) {
      DelReadAsToken(z);
    } else if forall i | 0 <= i < 136 :: !Reads(z, Keyword(i).0) {
      ReadAsNothing(z);
    }
    SqliteSound();
    MisreadExactly(z);
    id := TK_ID;
    var n;
    n, id := KeywordCode(Sqlite(), z, id);
    if 127 in z {
      DelSpellsNothing(Sqlite(), z);
    } else {
      NormalOfPlain(z);
    }
  }

  /** One such spelling: a keyword to the recogniser, an identifier to the plain search. */
  lemma DelIsMisread(z: seq<Byte>)
    requires z == [67, 85, 82, 82, 69, 78, 84, 127, 68, 65, 84, 69]
    ensures CodeOf(Sqlite(), Normal(z), TK_ID) != TK_ID == CodeOf(Sqlite(), z, TK_ID)
  {
    assert DelForUnderscore(z) by {
      assert SpelledAs(z, "CURRENT\U{7F}DATE");
    }
    MisreadExactly(z);
    SqliteSound();
    DelSpellsNothing(Sqlite(), z);
  }

  /** On an index out of range the caller's cells keep what they hold. */
  method Sqlite3KeywordName(i: int, pzName: nat, pnName: nat) returns (rc: int, zName: nat, nName: nat)
    ensures rc == if 0 <= i < 136 then 0 else 1
    ensures rc == 1 ==> zName == pzName && nName == pnName
    ensures rc == 0 ==> zName + nName <= |Sqlite().text| && Sqlite().text[zName..zName + nName] == Sqlite().word[i]
  {
    rc, zName, nName := SQLITE_OK, pzName, pnName;
    if i < 0 || i >= N_KEYWORD {
      rc := SQLITE_ERROR;
      return;
    }
    AllSpelled(i);
    zName := Sqlite().offset[i];
    nName := Sqlite().len[i];
  }

  method Sqlite3KeywordCheck(zName: seq<Byte>) returns (isKeyword: bool)
    requires |zName| < 0x8000_0000
    ensures isKeyword <==> DelForUnderscore(zName) || LinearSearch(Sqlite().word, zName, 0).Some?
    ensures isKeyword <==> DelForUnderscore(zName) || exists i | 0 <= i < 136 :: Reads(zName, Keyword(i).0)
  {
    forall i | 0 <= i < 136
      ensures Keyword(i).1 != 59
    {
      AllGenerated(i);
    }
    var id := Sqlite3KeywordCode(zName);
    isKeyword := TK_ID != id;
    MisreadExactly(zName);
    SqliteSound();
    if 127 !in zName {
      NormalOfPlain(zName);
    } else {
      DelSpellsNothing(Sqlite(), zName);
    }
  }

  /** The name of keyword i, as the bytes of the text it is cut from. */
  function NameBytes(i: nat): (z: seq<Byte>)
    requires i < N_KEYWORD
    ensures |z| == |Sqlite().word[i]|
  {
    AllSpelled(i);
    SqliteSound();
    seq(Sqlite().len[i], j requires 0 <= j < Sqlite().len[i] => Sqlite().text[Sqlite().offset[i] + j] as nat)
  }

  /** Every name that is listed is recognised, as the keyword it was listed for. */
  lemma NamesPass(i: nat)
    requires i < N_KEYWORD
    ensures LinearSearch(Sqlite().word, NameBytes(i), 0) == Some(i)
    ensures CodeOf(Sqlite(), Normal(NameBytes(i)), TK_ID) == Sqlite().code[i] != TK_ID
  {
    SqliteSound();
    AllSpelled(i);
    var z := NameBytes(i);
    assert SpelledAs(z, Sqlite().word[i]);
    FoundAsItself(Sqlite(), z, i);
    NormalOfPlain(z);
  }
}
