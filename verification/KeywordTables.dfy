/**
 The tables of keywordhash.h. Each array is a function of the index: a binary search for
 the row of sixteen entries, then the entry in the row.
 */
module KeywordTables {

  const N_TEXT: nat := 613
  const N_KEYWORD: nat := 136

  function Row<T>(i: nat, x0: T, x1: T, x2: T, x3: T, x4: T, x5: T, x6: T, x7: T,
                  x8: T, x9: T, x10: T, x11: T, x12: T, x13: T, x14: T, x15: T): T
    requires i < 16
  {
    if i < 8 then
      (if i < 4 then if i < 2 then if i < 1 then x0 else x1 else if i < 3 then x2 else x3 else if i < 6 then if i < 5 then x4 else x5 else if i < 7 then x6 else x7)
    else
      (if i < 12 then if i < 10 then if i < 9 then x8 else x9 else if i < 11 then x10 else x11 else if i < 14 then if i < 13 then x12 else x13 else if i < 15 then x14 else x15)
  }

  /** zKWText: the overlapped text of the keywords. */
  function KWText(i: nat): (c: char)
    requires i < N_TEXT
    ensures 'A' <= c <= 'Z' || c == '_'
    ensures c == '_' <==> i == 282 || i == 445
  {
    if i < 304 then
      if i < 144 then
        if i < 64 then
          if i < 32 then
            if i < 16 then
              Row(i - 0, 'R', 'E', 'I', 'N', 'D', 'E', 'X', 'E', 'D', 'E', 'S', 'C', 'A', 'P', 'E', 'A')
            else
              Row(i - 16, 'C', 'H', 'E', 'C', 'K', 'E', 'Y', 'B', 'E', 'F', 'O', 'R', 'E', 'I', 'G', 'N')
          else
            if i < 48 then
              Row(i - 32, 'O', 'R', 'E', 'G', 'E', 'X', 'P', 'L', 'A', 'I', 'N', 'S', 'T', 'E', 'A', 'D')
            else
              Row(i - 48, 'D', 'A', 'T', 'A', 'B', 'A', 'S', 'E', 'L', 'E', 'C', 'T', 'A', 'B', 'L', 'E')
        else
          if i < 96 then
            if i < 80 then
              Row(i - 64, 'F', 'T', 'H', 'E', 'N', 'D', 'E', 'F', 'E', 'R', 'R', 'A', 'B', 'L', 'E', 'L')
            else
              Row(i - 80, 'S', 'E', 'X', 'C', 'E', 'P', 'T', 'R', 'A', 'N', 'S', 'A', 'C', 'T', 'I', 'O')
          else
            if i < 112 then
              Row(i - 96, 'N', 'A', 'T', 'U', 'R', 'A', 'L', 'T', 'E', 'R', 'A', 'I', 'S', 'E', 'X', 'C')
            else
              if i < 128 then
                Row(i - 112, 'L', 'U', 'S', 'I', 'V', 'E', 'X', 'I', 'S', 'T', 'S', 'A', 'V', 'E', 'P', 'O')
              else
                Row(i - 128, 'I', 'N', 'T', 'E', 'R', 'S', 'E', 'C', 'T', 'R', 'I', 'G', 'G', 'E', 'R', 'E')
      else
        if i < 224 then
          if i < 176 then
            if i < 160 then
              Row(i - 144, 'F', 'E', 'R', 'E', 'N', 'C', 'E', 'S', 'C', 'O', 'N', 'S', 'T', 'R', 'A', 'I')
            else
              Row(i - 160, 'N', 'T', 'O', 'F', 'F', 'S', 'E', 'T', 'E', 'M', 'P', 'O', 'R', 'A', 'R', 'Y')
          else
            if i < 192 then
              Row(i - 176, 'U', 'N', 'I', 'Q', 'U', 'E', 'R', 'Y', 'W', 'I', 'T', 'H', 'O', 'U', 'T', 'E')
            else
              if i < 208 then
                Row(i - 192, 'R', 'E', 'L', 'E', 'A', 'S', 'E', 'A', 'T', 'T', 'A', 'C', 'H', 'A', 'V', 'I')
              else
                Row(i - 208, 'N', 'G', 'R', 'O', 'U', 'P', 'D', 'A', 'T', 'E', 'B', 'E', 'G', 'I', 'N', 'N')
        else
          if i < 256 then
            if i < 240 then
              Row(i - 224, 'E', 'R', 'A', 'N', 'G', 'E', 'B', 'E', 'T', 'W', 'E', 'E', 'N', 'O', 'T', 'H')
            else
              Row(i - 240, 'I', 'N', 'G', 'L', 'O', 'B', 'Y', 'C', 'A', 'S', 'C', 'A', 'D', 'E', 'L', 'E')
          else
            if i < 272 then
              Row(i - 256, 'T', 'E', 'C', 'A', 'S', 'E', 'C', 'O', 'L', 'L', 'A', 'T', 'E', 'C', 'R', 'E')
            else
              if i < 288 then
                Row(i - 272, 'A', 'T', 'E', 'C', 'U', 'R', 'R', 'E', 'N', 'T', '_', 'D', 'A', 'T', 'E', 'D')
              else
                Row(i - 288, 'E', 'T', 'A', 'C', 'H', 'I', 'M', 'M', 'E', 'D', 'I', 'A', 'T', 'E', 'J', 'O')
    else
      if i < 464 then
        if i < 384 then
          if i < 336 then
            if i < 320 then
              Row(i - 304, 'I', 'N', 'S', 'E', 'R', 'T', 'L', 'I', 'K', 'E', 'M', 'A', 'T', 'C', 'H', 'P')
            else
              Row(i - 320, 'L', 'A', 'N', 'A', 'L', 'Y', 'Z', 'E', 'P', 'R', 'A', 'G', 'M', 'A', 'B', 'O')
          else
            if i < 352 then
              Row(i - 336, 'R', 'T', 'V', 'A', 'L', 'U', 'E', 'S', 'V', 'I', 'R', 'T', 'U', 'A', 'L', 'I')
            else
              if i < 368 then
                Row(i - 352, 'M', 'I', 'T', 'W', 'H', 'E', 'N', 'O', 'T', 'N', 'U', 'L', 'L', 'W', 'H', 'E')
              else
                Row(i - 368, 'R', 'E', 'C', 'U', 'R', 'S', 'I', 'V', 'E', 'A', 'F', 'T', 'E', 'R', 'E', 'N')
        else
          if i < 416 then
            if i < 400 then
              Row(i - 384, 'A', 'M', 'E', 'A', 'N', 'D', 'E', 'F', 'A', 'U', 'L', 'T', 'A', 'U', 'T', 'O')
            else
              Row(i - 400, 'I', 'N', 'C', 'R', 'E', 'M', 'E', 'N', 'T', 'C', 'A', 'S', 'T', 'C', 'O', 'L')
          else
            if i < 432 then
              Row(i - 416, 'U', 'M', 'N', 'C', 'O', 'M', 'M', 'I', 'T', 'C', 'O', 'N', 'F', 'L', 'I', 'C')
            else
              if i < 448 then
                Row(i - 432, 'T', 'C', 'R', 'O', 'S', 'S', 'C', 'U', 'R', 'R', 'E', 'N', 'T', '_', 'T', 'I')
              else
                Row(i - 448, 'M', 'E', 'S', 'T', 'A', 'M', 'P', 'A', 'R', 'T', 'I', 'T', 'I', 'O', 'N', 'D')
      else
        if i < 544 then
          if i < 496 then
            if i < 480 then
              Row(i - 464, 'E', 'F', 'E', 'R', 'R', 'E', 'D', 'I', 'S', 'T', 'I', 'N', 'C', 'T', 'D', 'R')
            else
              Row(i - 480, 'O', 'P', 'R', 'E', 'C', 'E', 'D', 'I', 'N', 'G', 'F', 'A', 'I', 'L', 'F', 'I')
          else
            if i < 512 then
              Row(i - 496, 'L', 'T', 'E', 'R', 'E', 'P', 'L', 'A', 'C', 'E', 'F', 'O', 'L', 'L', 'O', 'W')
            else
              if i < 528 then
                Row(i - 512, 'I', 'N', 'G', 'F', 'R', 'O', 'M', 'F', 'U', 'L', 'L', 'I', 'F', 'I', 'S', 'N')
              else
                Row(i - 528, 'U', 'L', 'L', 'O', 'R', 'D', 'E', 'R', 'E', 'S', 'T', 'R', 'I', 'C', 'T', 'O')
        else
          if i < 576 then
            if i < 560 then
              Row(i - 544, 'V', 'E', 'R', 'I', 'G', 'H', 'T', 'R', 'O', 'L', 'L', 'B', 'A', 'C', 'K', 'R')
            else
              Row(i - 560, 'O', 'W', 'S', 'U', 'N', 'B', 'O', 'U', 'N', 'D', 'E', 'D', 'U', 'N', 'I', 'O')
          else
            if i < 592 then
              Row(i - 576, 'N', 'U', 'S', 'I', 'N', 'G', 'V', 'A', 'C', 'U', 'U', 'M', 'V', 'I', 'E', 'W')
            else
              if i < 608 then
                Row(i - 592, 'I', 'N', 'D', 'O', 'W', 'I', 'N', 'I', 'T', 'I', 'A', 'L', 'L', 'Y', 'P', 'R')
              else
                Row(i - 608, 'I', 'M', 'A', 'R', 'Y', '_', '_', '_', '_', '_', '_', '_', '_', '_', '_', '_')
  }

  /** aKWHash: one more than the first keyword with a hash value, or 0. */
  function KWHash(i: nat): (k: nat)
    requires i < 127
    ensures k <= N_KEYWORD
  {
    if i < 64 then
      if i < 32 then
        if i < 16 then
          Row(i - 0, 74, 109, 124, 72, 106, 45, 0, 0, 81, 0, 76, 61, 0, 42, 12, 77)
        else
          Row(i - 16, 15, 0, 123, 84, 54, 118, 125, 19, 0, 0, 130, 0, 128, 121, 0, 22)
      else
        if i < 48 then
          Row(i - 32, 96, 0, 9, 0, 0, 115, 69, 0, 67, 6, 0, 48, 93, 136, 0, 126)
        else
          Row(i - 48, 104, 0, 0, 44, 0, 107, 24, 0, 17, 0, 131, 53, 23, 0, 5, 62)
    else
      if i < 96 then
        if i < 80 then
          Row(i - 64, 132, 99, 0, 0, 135, 110, 60, 134, 57, 113, 55, 0, 94, 0, 103, 26)
        else
          Row(i - 80, 0, 102, 0, 0, 0, 98, 95, 100, 105, 117, 14, 39, 116, 0, 80, 0)
      else
        if i < 112 then
          Row(i - 96, 133, 114, 92, 59, 0, 129, 79, 119, 86, 46, 83, 0, 0, 97, 40, 122)
        else
          Row(i - 112, 120, 0, 127, 0, 0, 29, 0, 89, 87, 88, 0, 20, 85, 111, 56, 0)
  }

  /** aKWNext: one more than the next keyword with the same hash value, or 0. Chains descend. */
  function KWNext(i: nat): (k: nat)
    requires i < N_KEYWORD
    ensures k <= i
  {
    if i < 64 then
      if i < 32 then
        if i < 16 then
          Row(i - 0, 0, 0, 0, 0, 4, 0, 0, 0, 0, 0, 0, 0, 0, 0, 2, 0)
        else
          Row(i - 16, 0, 0, 0, 0, 0, 13, 0, 0, 0, 0, 0, 7, 0, 0, 0, 0)
      else
        if i < 48 then
          Row(i - 32, 0, 0, 0, 0, 0, 0, 0, 0, 0, 0, 0, 33, 0, 21, 0, 0)
        else
          Row(i - 48, 0, 0, 0, 50, 0, 43, 3, 47, 0, 0, 32, 0, 0, 0, 0, 0)
    else
      if i < 96 then
        if i < 80 then
          Row(i - 64, 0, 0, 1, 64, 0, 0, 65, 0, 41, 0, 38, 0, 0, 0, 0, 0)
        else
          Row(i - 80, 49, 75, 0, 0, 30, 0, 58, 0, 0, 0, 31, 63, 16, 34, 10, 0)
      else
        if i < 112 then
          Row(i - 96, 0, 0, 0, 0, 0, 0, 11, 70, 91, 0, 0, 8, 0, 108, 0, 101)
        else
          if i < 128 then
            Row(i - 112, 28, 52, 68, 0, 112, 0, 73, 51, 0, 90, 27, 37, 0, 71, 36, 82)
          else
            Row(i - 128, 0, 35, 66, 25, 18, 0, 0, 78, 0, 0, 0, 0, 0, 0, 0, 0)
  }

  /** aKWLen: the length of a keyword. */
  function KWLen(i: nat): (n: nat)
    requires i < N_KEYWORD
    ensures 2 <= n <= 17
  {
    if i < 64 then
      if i < 32 then
        if i < 16 then
          Row(i - 0, 7, 7, 5, 4, 6, 4, 5, 3, 6, 7, 3, 6, 6, 7, 7, 3)
        else
          Row(i - 16, 8, 2, 6, 5, 4, 4, 3, 10, 4, 6, 11, 6, 2, 7, 5, 5)
      else
        if i < 48 then
          Row(i - 32, 9, 6, 9, 9, 7, 10, 10, 4, 6, 2, 3, 9, 4, 2, 6, 5)
        else
          Row(i - 48, 7, 4, 5, 7, 6, 6, 5, 6, 5, 5, 5, 7, 7, 4, 2, 7)
    else
      if i < 96 then
        if i < 80 then
          Row(i - 64, 3, 6, 4, 7, 6, 12, 6, 9, 4, 6, 4, 5, 4, 7, 6, 5)
        else
          Row(i - 80, 6, 7, 5, 4, 7, 3, 2, 4, 5, 9, 5, 6, 3, 7, 13, 2)
      else
        if i < 112 then
          Row(i - 96, 2, 4, 6, 6, 8, 5, 17, 12, 7, 9, 8, 8, 2, 4, 9, 4)
        else
          if i < 128 then
            Row(i - 112, 6, 7, 9, 4, 4, 2, 6, 5, 8, 4, 5, 8, 4, 3, 9, 5)
          else
            Row(i - 128, 5, 6, 4, 6, 2, 9, 3, 7, 2, 2, 2, 2, 2, 2, 2, 2)
  }

  /** aKWOffset: where the text of a keyword starts. */
  function KWOffset(i: nat): nat
    requires i < N_KEYWORD
  {
    if i < 64 then
      if i < 32 then
        if i < 16 then
          Row(i - 0, 0, 2, 2, 8, 9, 14, 16, 20, 23, 25, 25, 29, 33, 36, 41, 46)
        else
          Row(i - 16, 48, 53, 54, 59, 62, 65, 67, 69, 78, 81, 86, 91, 95, 96, 101, 105)
      else
        if i < 48 then
          Row(i - 32, 109, 117, 122, 128, 136, 142, 152, 159, 162, 162, 165, 167, 167, 171, 176, 179)
        else
          Row(i - 48, 184, 184, 188, 192, 199, 204, 209, 212, 218, 221, 225, 230, 236, 242, 245, 247)
    else
      if i < 96 then
        if i < 80 then
          Row(i - 64, 248, 252, 258, 262, 269, 275, 287, 293, 302, 304, 310, 314, 319, 321, 328, 333)
        else
          Row(i - 80, 338, 344, 350, 355, 358, 358, 358, 361, 365, 368, 377, 381, 387, 389, 396, 398)
      else
        if i < 112 then
          Row(i - 96, 400, 409, 413, 419, 425, 433, 438, 438, 438, 454, 463, 470, 471, 478, 481, 490)
        else
          if i < 128 then
            Row(i - 112, 494, 499, 506, 515, 519, 523, 525, 531, 535, 543, 546, 551, 559, 559, 563, 572)
          else
            Row(i - 128, 577, 582, 588, 591, 594, 597, 602, 606, 0, 0, 0, 0, 0, 0, 0, 0)
  }

  /** aKWCode: the token code of a keyword, by the numbers of parse.h; none of them is that of an identifier. */
  function KWCode(i: nat): (code: nat)
    requires i < N_KEYWORD
    ensures code != 59
  {
    if i < 64 then
      if i < 32 then
        if i < 16 then
          Row(i - 0, 88, 105, 149, 39, 58, 41, 113, 67, 33, 121, 62, 63, 47, 2, 65, 151)
        else
          Row(i - 16, 38, 24, 127, 16, 107, 147, 11, 120, 148, 125, 6, 28, 104, 107, 150, 71)
      else
        if i < 48 then
          Row(i - 32, 9, 20, 13, 126, 77, 114, 108, 139, 69, 68, 119, 21, 21, 43, 112, 3)
        else
          Row(i - 48, 25, 81, 107, 14, 32, 136, 135, 118, 5, 107, 86, 48, 140, 47, 34, 35)
    else
      if i < 96 then
        if i < 80 then
          Row(i - 64, 31, 117, 145, 102, 17, 90, 40, 8, 132, 116, 47, 46, 4, 30, 70, 27)
        else
          Row(i - 80, 128, 80, 137, 146, 51, 19, 66, 110, 138, 72, 29, 89, 44, 109, 115, 15)
      else
        if i < 112 then
          Row(i - 96, 49, 36, 60, 10, 37, 107, 90, 90, 82, 84, 7, 129, 45, 122, 85, 42)
        else
          if i < 128 then
            Row(i - 112, 154, 73, 83, 131, 107, 18, 50, 134, 74, 153, 107, 12, 76, 75, 87, 123)
          else
            Row(i - 128, 133, 78, 79, 152, 61, 64, 124, 111, 0, 0, 0, 0, 0, 0, 0, 0)
  }

  /** The keywords by name, in the order of the tables. */
  function KWWord(i: nat): string
    requires i < N_KEYWORD
  {
    if i < 64 then
      if i < 32 then
        if i < 16 then
          Row(i - 0, "REINDEX", "INDEXED", "INDEX", "DESC", "ESCAPE", "EACH", "CHECK", "KEY", "BEFORE", "FOREIGN", "FOR", "IGNORE", "REGEXP", "EXPLAIN", "INSTEAD", "ADD")
        else
          Row(i - 16, "DATABASE", "AS", "SELECT", "TABLE", "LEFT", "THEN", "END", "DEFERRABLE", "ELSE", "EXCEPT", "TRANSACTION", "ACTION", "ON", "NATURAL", "ALTER", "RAISE")
      else
        if i < 48 then
          Row(i - 32, "EXCLUSIVE", "EXISTS", "SAVEPOINT", "INTERSECT", "TRIGGER", "REFERENCES", "CONSTRAINT", "INTO", "OFFSET", "OF", "SET", "TEMPORARY", "TEMP", "OR", "UNIQUE", "QUERY")
        else
          Row(i - 48, "WITHOUT", "WITH", "OUTER", "RELEASE", "ATTACH", "HAVING", "GROUP", "UPDATE", "BEGIN", "INNER", "RANGE", "BETWEEN", "NOTHING", "GLOB", "BY", "CASCADE")
    else
      if i < 96 then
        if i < 80 then
          Row(i - 64, "ASC", "DELETE", "CASE", "COLLATE", "CREATE", "CURRENT_DATE", "DETACH", "IMMEDIATE", "JOIN", "INSERT", "LIKE", "MATCH", "PLAN", "ANALYZE", "PRAGMA", "ABORT")
        else
          Row(i - 80, "VALUES", "VIRTUAL", "LIMIT", "WHEN", "NOTNULL", "NOT", "NO", "NULL", "WHERE", "RECURSIVE", "AFTER", "RENAME", "AND", "DEFAULT", "AUTOINCREMENT", "TO")
      else
        if i < 112 then
          Row(i - 96, "IN", "CAST", "COLUMN", "COMMIT", "CONFLICT", "CROSS", "CURRENT_TIMESTAMP", "CURRENT_TIME", "CURRENT", "PARTITION", "DEFERRED", "DISTINCT", "IS", "DROP", "PRECEDING", "FAIL")
        else
          if i < 128 then
            Row(i - 112, "FILTER", "REPLACE", "FOLLOWING", "FROM", "FULL", "IF", "ISNULL", "ORDER", "RESTRICT", "OVER", "RIGHT", "ROLLBACK", "ROWS", "ROW", "UNBOUNDED", "UNION")
          else
            Row(i - 128, "USING", "VACUUM", "VIEW", "WINDOW", "DO", "INITIALLY", "ALL", "PRIMARY", "", "", "", "", "", "", "", "")
  }
}
