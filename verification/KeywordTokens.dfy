/**
 The keywords and their tokens as the source of the generator lists them, and the proof that
 the generated tables hold just these, each with its token.
 */
module KeywordTokens {
  import opened KeywordTables

  /** The first half of the list. */
  function EarlyKeyword(i: nat): (string, nat)
    requires i < 64
  {
    if i < 32 then
      if i < 16 then
        Row(i - 0, ("ABORT", 27), ("ACTION", 28), ("ADD", 151), ("AFTER", 29),
                   ("ALL", 124), ("ALTER", 150), ("ANALYZE", 30), ("AND", 44),
                   ("AS", 24), ("ASC", 31), ("ATTACH", 32), ("AUTOINCREMENT", 115),
                   ("BEFORE", 33), ("BEGIN", 5), ("BETWEEN", 48), ("BY", 34))
      else
        Row(i - 16, ("CASCADE", 35), ("CASE", 145), ("CAST", 36), ("CHECK", 113),
                    ("COLLATE", 102), ("COLUMN", 60), ("COMMIT", 10), ("CONFLICT", 37),
                    ("CONSTRAINT", 108), ("CREATE", 17), ("CROSS", 107), ("CURRENT", 82),
                    ("CURRENT_DATE", 90), ("CURRENT_TIME", 90), ("CURRENT_TIMESTAMP", 90), ("DATABASE", 38))
    else
      if i < 48 then
        Row(i - 32, ("DEFAULT", 109), ("DEFERRED", 7), ("DEFERRABLE", 120), ("DELETE", 117),
                    ("DESC", 39), ("DETACH", 40), ("DISTINCT", 129), ("DO", 61),
                    ("DROP", 122), ("END", 11), ("EACH", 41), ("ELSE", 148),
                    ("ESCAPE", 58), ("EXCEPT", 125), ("EXCLUSIVE", 9), ("EXISTS", 20))
      else
        Row(i - 48, ("EXPLAIN", 2), ("FAIL", 42), ("FILTER", 154), ("FOLLOWING", 83),
                    ("FOR", 62), ("FOREIGN", 121), ("FROM", 131), ("FULL", 107),
                    ("GLOB", 47), ("GROUP", 135), ("HAVING", 136), ("IF", 18),
                    ("IGNORE", 63), ("IMMEDIATE", 8), ("IN", 49), ("INDEX", 149))
  }

  /** The second half of the list. */
  function LateKeyword(i: nat): (string, nat)
    requires 64 <= i < 136
  {
    if i < 96 then
      if i < 80 then
        Row(i - 64, ("INDEXED", 105), ("INITIALLY", 64), ("INNER", 107), ("INSERT", 116),
                    ("INSTEAD", 65), ("INTERSECT", 126), ("INTO", 139), ("IS", 45),
                    ("ISNULL", 50), ("JOIN", 132), ("KEY", 67), ("LEFT", 107),
                    ("LIKE", 47), ("LIMIT", 137), ("MATCH", 46), ("NATURAL", 107))
      else
        Row(i - 80, ("NO", 66), ("NOT", 19), ("NOTHING", 140), ("NOTNULL", 51),
                    ("NULL", 110), ("OF", 68), ("OFFSET", 69), ("ON", 104),
                    ("OR", 43), ("ORDER", 134), ("OUTER", 107), ("OVER", 153),
                    ("PARTITION", 84), ("PLAN", 4), ("PRAGMA", 70), ("PRECEDING", 85))
    else
      if i < 112 then
        Row(i - 96, ("PRIMARY", 111), ("QUERY", 3), ("RAISE", 71), ("RANGE", 86),
                    ("RECURSIVE", 72), ("REFERENCES", 114), ("REGEXP", 47), ("REINDEX", 88),
                    ("RELEASE", 14), ("RENAME", 89), ("REPLACE", 73), ("RESTRICT", 74),
                    ("RIGHT", 107), ("ROLLBACK", 12), ("ROW", 75), ("ROWS", 76))
      else
        if i < 128 then
          Row(i - 112, ("SAVEPOINT", 13), ("SELECT", 127), ("SET", 119), ("TABLE", 16),
                       ("TEMP", 21), ("TEMPORARY", 21), ("THEN", 147), ("TO", 15),
                       ("TRANSACTION", 6), ("TRIGGER", 77), ("UNBOUNDED", 87), ("UNION", 123),
                       ("UNIQUE", 112), ("UPDATE", 118), ("USING", 133), ("VACUUM", 78))
        else
          Row(i - 128, ("VALUES", 128), ("VIEW", 79), ("VIRTUAL", 80), ("WINDOW", 152),
                       ("WITH", 81), ("WITHOUT", 25), ("WHEN", 146), ("WHERE", 138),
                       ("", 0), ("", 0), ("", 0), ("", 0),
                       ("", 0), ("", 0), ("", 0), ("", 0))
  }

  /** aKeywordTable of mkkeywordhash.c: the spelling of each keyword, and the number parse.h gives its token. */
  function Keyword(i: nat): (string, nat)
    requires i < 136
  {
    if i < 64 then EarlyKeyword(i) else LateKeyword(i)
  }

  /** Where the generated tables have the keyword. */
  function PlaceOf(i: nat): (k: nat)
    requires i < N_KEYWORD
    ensures k < N_KEYWORD
  {
    if i < 64 then
      if i < 32 then
        if i < 16 then
          Row(i - 0, 79, 27, 15, 90, 134, 30, 77, 92, 17, 64, 52, 94, 8, 56, 59, 62)
        else
          Row(i - 16, 63, 66, 97, 6, 67, 98, 99, 100, 38, 68, 101, 104, 69, 103, 102, 16)
      else
        if i < 48 then
          Row(i - 32, 93, 106, 23, 65, 3, 70, 107, 132, 109, 22, 5, 24, 4, 25, 32, 33)
        else
          Row(i - 48, 13, 111, 112, 114, 10, 9, 115, 116, 61, 54, 53, 117, 11, 71, 96, 2)
    else
      if i < 96 then
        if i < 80 then
          Row(i - 64, 1, 133, 57, 73, 14, 35, 39, 108, 118, 72, 7, 20, 74, 82, 75, 29)
        else
          Row(i - 80, 86, 85, 60, 84, 87, 41, 40, 28, 45, 119, 50, 121, 105, 76, 78, 110)
      else
        if i < 112 then
          Row(i - 96, 135, 47, 31, 58, 89, 37, 12, 0, 51, 91, 113, 120, 122, 123, 125, 124)
        else
          if i < 128 then
            Row(i - 112, 34, 18, 42, 19, 44, 43, 21, 95, 26, 36, 126, 127, 46, 55, 128, 129)
          else
            Row(i - 128, 80, 130, 81, 131, 49, 48, 83, 88, 0, 0, 0, 0, 0, 0, 0, 0)
  }

  /** Where the generator's source has the keyword of the generated tables. */
  function OriginOf(i: nat): (j: nat)
    requires i < N_KEYWORD
    ensures j < N_KEYWORD
  {
    if i < 64 then
      if i < 32 then
        if i < 16 then
          Row(i - 0, 103, 64, 63, 36, 44, 42, 19, 74, 12, 53, 52, 60, 102, 48, 68, 2)
        else
          Row(i - 16, 31, 8, 113, 115, 75, 118, 41, 34, 43, 45, 120, 1, 87, 79, 5, 98)
      else
        if i < 48 then
          Row(i - 32, 46, 47, 112, 69, 121, 101, 24, 70, 86, 85, 114, 117, 116, 88, 124, 97)
        else
          Row(i - 48, 133, 132, 90, 104, 10, 58, 57, 125, 13, 66, 99, 14, 82, 56, 15, 16)
    else
      if i < 96 then
        if i < 80 then
          Row(i - 64, 9, 35, 17, 20, 25, 28, 37, 61, 73, 67, 76, 78, 93, 6, 94, 0)
        else
          Row(i - 80, 128, 130, 77, 134, 83, 81, 80, 84, 135, 100, 3, 105, 7, 32, 11, 119)
      else
        if i < 112 then
          Row(i - 96, 62, 18, 21, 22, 23, 26, 30, 29, 27, 92, 33, 38, 71, 40, 95, 49)
        else
          if i < 128 then
            Row(i - 112, 50, 106, 51, 54, 55, 59, 72, 89, 107, 91, 108, 109, 111, 110, 122, 123)
          else
            Row(i - 128, 126, 127, 129, 131, 39, 65, 4, 96, 0, 0, 0, 0, 0, 0, 0, 0)
  }

  /** The generated tables have this keyword, with its token. */
  predicate Generated(i: nat)
    requires i < N_KEYWORD
  {
    && KWWord(PlaceOf(i)) == Keyword(i).0
    && KWCode(PlaceOf(i)) == Keyword(i).1
    && PlaceOf(OriginOf(i)) == i
  }

  lemma Generated0(i: nat)
    requires 0 <= i < 8
    ensures Generated(i)
  {
  }

  lemma Generated8(i: nat)
    requires 8 <= i < 16
    ensures Generated(i)
  {
  }

  lemma Generated16(i: nat)
    requires 16 <= i < 24
    ensures Generated(i)
  {
  }

  lemma Generated24(i: nat)
    requires 24 <= i < 32
    ensures Generated(i)
  {
  }

  lemma Generated32(i: nat)
    requires 32 <= i < 40
    ensures Generated(i)
  {
  }

  lemma Generated40(i: nat)
    requires 40 <= i < 48
    ensures Generated(i)
  {
  }

  lemma Generated48(i: nat)
    requires 48 <= i < 56
    ensures Generated(i)
  {
  }

  lemma Generated56(i: nat)
    requires 56 <= i < 64
    ensures Generated(i)
  {
  }

  lemma Generated64(i: nat)
    requires 64 <= i < 72
    ensures Generated(i)
  {
  }

  lemma Generated72(i: nat)
    requires 72 <= i < 80
    ensures Generated(i)
  {
  }

  lemma Generated80(i: nat)
    requires 80 <= i < 88
    ensures Generated(i)
  {
  }

  lemma Generated88(i: nat)
    requires 88 <= i < 96
    ensures Generated(i)
  {
  }

  lemma Generated96(i: nat)
    requires 96 <= i < 104
    ensures Generated(i)
  {
  }

  lemma Generated104(i: nat)
    requires 104 <= i < 112
    ensures Generated(i)
  {
  }

  lemma Generated112(i: nat)
    requires 112 <= i < 120
    ensures Generated(i)
  {
  }

  lemma Generated120(i: nat)
    requires 120 <= i < 128
    ensures Generated(i)
  {
  }

  lemma Generated128(i: nat)
    requires 128 <= i < 136
    ensures Generated(i)
  {
  }

  lemma AllGenerated(i: nat)
    requires i < N_KEYWORD
    ensures Generated(i)
  {
    if i < 8 {
      Generated0(i);
    } else if i < 16 {
      Generated8(i);
    } else if i < 24 {
      Generated16(i);
    } else if i < 32 {
      Generated24(i);
    } else if i < 40 {
      Generated32(i);
    } else if i < 48 {
      Generated40(i);
    } else if i < 56 {
      Generated48(i);
    } else if i < 64 {
      Generated56(i);
    } else if i < 72 {
      Generated64(i);
    } else if i < 80 {
      Generated72(i);
    } else if i < 88 {
      Generated80(i);
    } else if i < 96 {
      Generated88(i);
    } else if i < 104 {
      Generated96(i);
    } else if i < 112 {
      Generated104(i);
    } else if i < 120 {
      Generated112(i);
    } else if i < 128 {
      Generated120(i);
    } else {
      Generated128(i);
    }
  }
}
