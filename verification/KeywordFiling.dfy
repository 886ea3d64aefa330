/**
 The check of the tables of keywordhash.h, keyword by keyword: the overlapped text spells
 it, and the chain of its hash value leads to it, once.
 */
module KeywordFiling {
  import opened KeywordSearch
  import opened KeywordTables
  import opened SqliteKeywords

  lemma Spelled0(k: nat)
    requires 0 <= k < 1
    ensures Spelled(Sqlite(), k)
  {
  }

  lemma Spelled1(k: nat)
    requires 1 <= k < 3
    ensures Spelled(Sqlite(), k)
  {
  }

  lemma Spelled3(k: nat)
    requires 3 <= k < 5
    ensures Spelled(Sqlite(), k)
  {
  }

  lemma Spelled5(k: nat)
    requires 5 <= k < 8
    ensures Spelled(Sqlite(), k)
  {
  }

  lemma Spelled8(k: nat)
    requires 8 <= k < 9
    ensures Spelled(Sqlite(), k)
  {
  }

  lemma Spelled9(k: nat)
    requires 9 <= k < 11
    ensures Spelled(Sqlite(), k)
  {
  }

  lemma Spelled11(k: nat)
    requires 11 <= k < 13
    ensures Spelled(Sqlite(), k)
  {
  }

  lemma Spelled13(k: nat)
    requires 13 <= k < 14
    ensures Spelled(Sqlite(), k)
  {
  }

  lemma Spelled14(k: nat)
    requires 14 <= k < 16
    ensures Spelled(Sqlite(), k)
  {
  }

  lemma Spelled16(k: nat)
    requires 16 <= k < 18
    ensures Spelled(Sqlite(), k)
  {
  }

  lemma Spelled18(k: nat)
    requires 18 <= k < 20
    ensures Spelled(Sqlite(), k)
  {
  }

  lemma Spelled20(k: nat)
    requires 20 <= k < 23
    ensures Spelled(Sqlite(), k)
  {
  }

  lemma Spelled23(k: nat)
    requires 23 <= k < 24
    ensures Spelled(Sqlite(), k)
  {
  }

  lemma Spelled24(k: nat)
    requires 24 <= k < 26
    ensures Spelled(Sqlite(), k)
  {
  }

  lemma Spelled26(k: nat)
    requires 26 <= k < 27
    ensures Spelled(Sqlite(), k)
  {
  }

  lemma Spelled27(k: nat)
    requires 27 <= k < 29
    ensures Spelled(Sqlite(), k)
  {
  }

  lemma Spelled29(k: nat)
    requires 29 <= k < 31
    ensures Spelled(Sqlite(), k)
  {
  }

  lemma Spelled31(k: nat)
    requires 31 <= k < 32
    ensures Spelled(Sqlite(), k)
  {
  }

  lemma Spelled32(k: nat)
    requires 32 <= k < 33
    ensures Spelled(Sqlite(), k)
  {
  }

  lemma Spelled33(k: nat)
    requires 33 <= k < 34
    ensures Spelled(Sqlite(), k)
  {
  }

  lemma Spelled34(k: nat)
    requires 34 <= k < 35
    ensures Spelled(Sqlite(), k)
  {
  }

  lemma Spelled35(k: nat)
    requires 35 <= k < 36
    ensures Spelled(Sqlite(), k)
  {
  }

  lemma Spelled36(k: nat)
    requires 36 <= k < 37
    ensures Spelled(Sqlite(), k)
  {
  }

  lemma Spelled37(k: nat)
    requires 37 <= k < 38
    ensures Spelled(Sqlite(), k)
  {
  }

  lemma Spelled38(k: nat)
    requires 38 <= k < 39
    ensures Spelled(Sqlite(), k)
  {
  }

  lemma Spelled39(k: nat)
    requires 39 <= k < 42
    ensures Spelled(Sqlite(), k)
  {
  }

  lemma Spelled42(k: nat)
    requires 42 <= k < 44
    ensures Spelled(Sqlite(), k)
  {
  }

  lemma Spelled44(k: nat)
    requires 44 <= k < 47
    ensures Spelled(Sqlite(), k)
  {
  }

  lemma Spelled47(k: nat)
    requires 47 <= k < 49
    ensures Spelled(Sqlite(), k)
  {
  }

  lemma Spelled49(k: nat)
    requires 49 <= k < 51
    ensures Spelled(Sqlite(), k)
  {
  }

  lemma Spelled51(k: nat)
    requires 51 <= k < 52
    ensures Spelled(Sqlite(), k)
  {
  }

  lemma Spelled52(k: nat)
    requires 52 <= k < 54
    ensures Spelled(Sqlite(), k)
  {
  }

  lemma Spelled54(k: nat)
    requires 54 <= k < 56
    ensures Spelled(Sqlite(), k)
  {
  }

  lemma Spelled56(k: nat)
    requires 56 <= k < 58
    ensures Spelled(Sqlite(), k)
  {
  }

  lemma Spelled58(k: nat)
    requires 58 <= k < 60
    ensures Spelled(Sqlite(), k)
  {
  }

  lemma Spelled60(k: nat)
    requires 60 <= k < 62
    ensures Spelled(Sqlite(), k)
  {
  }

  lemma Spelled62(k: nat)
    requires 62 <= k < 65
    ensures Spelled(Sqlite(), k)
  {
  }

  lemma Spelled65(k: nat)
    requires 65 <= k < 67
    ensures Spelled(Sqlite(), k)
  {
  }

  lemma Spelled67(k: nat)
    requires 67 <= k < 68
    ensures Spelled(Sqlite(), k)
  {
  }

  lemma Spelled68(k: nat)
    requires 68 <= k < 69
    ensures Spelled(Sqlite(), k)
  {
  }

  lemma Spelled69(k: nat)
    requires 69 <= k < 70
    ensures Spelled(Sqlite(), k)
  {
  }

  lemma Spelled70(k: nat)
    requires 70 <= k < 71
    ensures Spelled(Sqlite(), k)
  {
  }

  lemma Spelled71(k: nat)
    requires 71 <= k < 72
    ensures Spelled(Sqlite(), k)
  {
  }

  lemma Spelled72(k: nat)
    requires 72 <= k < 74
    ensures Spelled(Sqlite(), k)
  {
  }

  lemma Spelled74(k: nat)
    requires 74 <= k < 76
    ensures Spelled(Sqlite(), k)
  {
  }

  lemma Spelled76(k: nat)
    requires 76 <= k < 78
    ensures Spelled(Sqlite(), k)
  {
  }

  lemma Spelled78(k: nat)
    requires 78 <= k < 80
    ensures Spelled(Sqlite(), k)
  {
  }

  lemma Spelled80(k: nat)
    requires 80 <= k < 81
    ensures Spelled(Sqlite(), k)
  {
  }

  lemma Spelled81(k: nat)
    requires 81 <= k < 83
    ensures Spelled(Sqlite(), k)
  {
  }

  lemma Spelled83(k: nat)
    requires 83 <= k < 85
    ensures Spelled(Sqlite(), k)
  {
  }

  lemma Spelled85(k: nat)
    requires 85 <= k < 87
    ensures Spelled(Sqlite(), k)
  {
  }

  lemma Spelled87(k: nat)
    requires 87 <= k < 89
    ensures Spelled(Sqlite(), k)
  {
  }

  lemma Spelled89(k: nat)
    requires 89 <= k < 90
    ensures Spelled(Sqlite(), k)
  {
  }

  lemma Spelled90(k: nat)
    requires 90 <= k < 92
    ensures Spelled(Sqlite(), k)
  {
  }

  lemma Spelled92(k: nat)
    requires 92 <= k < 94
    ensures Spelled(Sqlite(), k)
  {
  }

  lemma Spelled94(k: nat)
    requires 94 <= k < 95
    ensures Spelled(Sqlite(), k)
  {
  }

  lemma Spelled95(k: nat)
    requires 95 <= k < 97
    ensures Spelled(Sqlite(), k)
  {
  }

  lemma Spelled97(k: nat)
    requires 97 <= k < 99
    ensures Spelled(Sqlite(), k)
  {
  }

  lemma Spelled99(k: nat)
    requires 99 <= k < 100
    ensures Spelled(Sqlite(), k)
  {
  }

  lemma Spelled100(k: nat)
    requires 100 <= k < 101
    ensures Spelled(Sqlite(), k)
  {
  }

  lemma Spelled101(k: nat)
    requires 101 <= k < 102
    ensures Spelled(Sqlite(), k)
  {
  }

  lemma Spelled102(k: nat)
    requires 102 <= k < 103
    ensures Spelled(Sqlite(), k)
  {
  }

  lemma Spelled103(k: nat)
    requires 103 <= k < 104
    ensures Spelled(Sqlite(), k)
  {
  }

  lemma Spelled104(k: nat)
    requires 104 <= k < 105
    ensures Spelled(Sqlite(), k)
  {
  }

  lemma Spelled105(k: nat)
    requires 105 <= k < 106
    ensures Spelled(Sqlite(), k)
  {
  }

  lemma Spelled106(k: nat)
    requires 106 <= k < 107
    ensures Spelled(Sqlite(), k)
  {
  }

  lemma Spelled107(k: nat)
    requires 107 <= k < 109
    ensures Spelled(Sqlite(), k)
  {
  }

  lemma Spelled109(k: nat)
    requires 109 <= k < 110
    ensures Spelled(Sqlite(), k)
  {
  }

  lemma Spelled110(k: nat)
    requires 110 <= k < 111
    ensures Spelled(Sqlite(), k)
  {
  }

  lemma Spelled111(k: nat)
    requires 111 <= k < 113
    ensures Spelled(Sqlite(), k)
  {
  }

  lemma Spelled113(k: nat)
    requires 113 <= k < 114
    ensures Spelled(Sqlite(), k)
  {
  }

  lemma Spelled114(k: nat)
    requires 114 <= k < 115
    ensures Spelled(Sqlite(), k)
  {
  }

  lemma Spelled115(k: nat)
    requires 115 <= k < 117
    ensures Spelled(Sqlite(), k)
  {
  }

  lemma Spelled117(k: nat)
    requires 117 <= k < 119
    ensures Spelled(Sqlite(), k)
  {
  }

  lemma Spelled119(k: nat)
    requires 119 <= k < 120
    ensures Spelled(Sqlite(), k)
  {
  }

  lemma Spelled120(k: nat)
    requires 120 <= k < 122
    ensures Spelled(Sqlite(), k)
  {
  }

  lemma Spelled122(k: nat)
    requires 122 <= k < 123
    ensures Spelled(Sqlite(), k)
  {
  }

  lemma Spelled123(k: nat)
    requires 123 <= k < 125
    ensures Spelled(Sqlite(), k)
  {
  }

  lemma Spelled125(k: nat)
    requires 125 <= k < 127
    ensures Spelled(Sqlite(), k)
  {
  }

  lemma Spelled127(k: nat)
    requires 127 <= k < 129
    ensures Spelled(Sqlite(), k)
  {
  }

  lemma Spelled129(k: nat)
    requires 129 <= k < 131
    ensures Spelled(Sqlite(), k)
  {
  }

  lemma Spelled131(k: nat)
    requires 131 <= k < 133
    ensures Spelled(Sqlite(), k)
  {
  }

  lemma Spelled133(k: nat)
    requires 133 <= k < 135
    ensures Spelled(Sqlite(), k)
  {
  }

  lemma Spelled135(k: nat)
    requires 135 <= k < 136
    ensures Spelled(Sqlite(), k)
  {
  }

  lemma Reachable0(k: nat)
    requires 0 <= k < 4
    ensures Reachable(Sqlite(), k)
  {
    match k
    case 0 => assert HashWord(114, 120, 7) as nat % 127 == 40 && FiledUnder(Sqlite(), 0, "REINDEX", 114, 120, 7, 40);
    case 1 => assert HashWord(105, 100, 7) as nat % 127 == 16 && FiledUnder(Sqlite(), 1, "INDEXED", 105, 100, 7, 16);
    case 2 => assert HashWord(105, 120, 5) as nat % 127 == 74 && FiledUnder(Sqlite(), 2, "INDEX", 105, 120, 5, 74);
    case _ => assert HashWord(100, 99, 4) as nat % 127 == 62 && FiledUnder(Sqlite(), 3, "DESC", 100, 99, 4, 62);
  }

  lemma Reachable4(k: nat)
    requires 4 <= k < 8
    ensures Reachable(Sqlite(), k)
  {
    match k
    case 4 => assert HashWord(101, 101, 6) as nat % 127 == 62 && FiledUnder(Sqlite(), 4, "ESCAPE", 101, 101, 6, 62);
    case 5 => assert HashWord(101, 104, 4) as nat % 127 == 41 && FiledUnder(Sqlite(), 5, "EACH", 101, 104, 4, 41);
    case 6 => assert HashWord(99, 107, 5) as nat % 127 == 73 && FiledUnder(Sqlite(), 6, "CHECK", 99, 107, 5, 73);
    case _ => assert HashWord(107, 121, 3) as nat % 127 == 69 && FiledUnder(Sqlite(), 7, "KEY", 107, 121, 3, 69);
  }

  lemma Reachable8(k: nat)
    requires 8 <= k < 12
    ensures Reachable(Sqlite(), k)
  {
    match k
    case 8 => assert HashWord(98, 101, 6) as nat % 127 == 34 && FiledUnder(Sqlite(), 8, "BEFORE", 98, 101, 6, 34);
    case 9 => assert HashWord(102, 110, 7) as nat % 127 == 86 && FiledUnder(Sqlite(), 9, "FOREIGN", 102, 110, 7, 86);
    case 10 => assert HashWord(102, 114, 3) as nat % 127 == 78 && FiledUnder(Sqlite(), 10, "FOR", 102, 114, 3, 78);
    case _ => assert HashWord(105, 101, 6) as nat % 127 == 14 && FiledUnder(Sqlite(), 11, "IGNORE", 105, 101, 6, 14);
  }

  lemma Reachable12(k: nat)
    requires 12 <= k < 16
    ensures Reachable(Sqlite(), k)
  {
    match k
    case 12 => assert HashWord(114, 112, 6) as nat % 127 == 31 && FiledUnder(Sqlite(), 12, "REGEXP", 114, 112, 6, 31);
    case 13 => assert HashWord(101, 110, 7) as nat % 127 == 90 && FiledUnder(Sqlite(), 13, "EXPLAIN", 101, 110, 7, 90);
    case 14 => assert HashWord(105, 100, 7) as nat % 127 == 16 && FiledUnder(Sqlite(), 14, "INSTEAD", 105, 100, 7, 16);
    case _ => assert HashWord(97, 100, 3) as nat % 127 == 44 && FiledUnder(Sqlite(), 15, "ADD", 97, 100, 3, 44);
  }

  lemma Reachable16(k: nat)
    requires 16 <= k < 20
    ensures Reachable(Sqlite(), k)
  {
    match k
    case 16 => assert HashWord(100, 101, 8) as nat % 127 == 56 && FiledUnder(Sqlite(), 16, "DATABASE", 100, 101, 8, 56);
    case 17 => assert HashWord(97, 115, 2) as nat % 127 == 96 && FiledUnder(Sqlite(), 17, "AS", 97, 115, 2, 96);
    case 18 => assert HashWord(115, 116, 6) as nat % 127 == 23 && FiledUnder(Sqlite(), 18, "SELECT", 115, 116, 6, 23);
    case _ => assert HashWord(116, 101, 5) as nat % 127 == 123 && FiledUnder(Sqlite(), 19, "TABLE", 116, 101, 5, 123);
  }

  lemma Reachable20(k: nat)
    requires 20 <= k < 24
    ensures Reachable(Sqlite(), k)
  {
    match k
    case 20 => assert HashWord(108, 116, 4) as nat % 127 == 105 && FiledUnder(Sqlite(), 20, "LEFT", 108, 116, 4, 105);
    case 21 => assert HashWord(116, 110, 4) as nat % 127 == 31 && FiledUnder(Sqlite(), 21, "THEN", 116, 110, 4, 31);
    case 22 => assert HashWord(101, 100, 3) as nat % 127 == 60 && FiledUnder(Sqlite(), 22, "END", 101, 100, 3, 60);
    case _ => assert HashWord(100, 101, 10) as nat % 127 == 54 && FiledUnder(Sqlite(), 23, "DEFERRABLE", 100, 101, 10, 54);
  }

  lemma Reachable24(k: nat)
    requires 24 <= k < 28
    ensures Reachable(Sqlite(), k)
  {
    match k
    case 24 => assert HashWord(101, 101, 4) as nat % 127 == 64 && FiledUnder(Sqlite(), 24, "ELSE", 101, 101, 4, 64);
    case 25 => assert HashWord(101, 116, 6) as nat % 127 == 79 && FiledUnder(Sqlite(), 25, "EXCEPT", 101, 116, 6, 79);
    case 26 => assert HashWord(116, 110, 11) as nat % 127 == 18 && FiledUnder(Sqlite(), 26, "TRANSACTION", 116, 110, 11, 18);
    case _ => assert HashWord(97, 110, 6) as nat % 127 == 73 && FiledUnder(Sqlite(), 27, "ACTION", 97, 110, 6, 73);
  }

  lemma Reachable28(k: nat)
    requires 28 <= k < 32
    ensures Reachable(Sqlite(), k)
  {
    match k
    case 28 => assert HashWord(111, 110, 2) as nat % 127 == 117 && FiledUnder(Sqlite(), 28, "ON", 111, 110, 2, 117);
    case 29 => assert HashWord(110, 108, 7) as nat % 127 == 124 && FiledUnder(Sqlite(), 29, "NATURAL", 110, 108, 7, 124);
    case 30 => assert HashWord(97, 114, 5) as nat % 127 == 88 && FiledUnder(Sqlite(), 30, "ALTER", 97, 114, 5, 88);
    case _ => assert HashWord(114, 101, 5) as nat % 127 == 99 && FiledUnder(Sqlite(), 31, "RAISE", 114, 101, 5, 99);
  }

  lemma Reachable32(k: nat)
    requires 32 <= k < 36
    ensures Reachable(Sqlite(), k)
  {
    match k
    case 32 => assert HashWord(101, 101, 9) as nat % 127 == 51 && FiledUnder(Sqlite(), 32, "EXCLUSIVE", 101, 101, 9, 51);
    case 33 => assert HashWord(101, 115, 6) as nat % 127 == 76 && FiledUnder(Sqlite(), 33, "EXISTS", 101, 115, 6, 76);
    case 34 => assert HashWord(115, 116, 9) as nat % 127 == 26 && FiledUnder(Sqlite(), 34, "SAVEPOINT", 115, 116, 9, 26);
    case _ => assert HashWord(105, 116, 9) as nat % 127 == 114 && FiledUnder(Sqlite(), 35, "INTERSECT", 105, 116, 9, 114);
  }

  lemma Reachable36(k: nat)
    requires 36 <= k < 40
    ensures Reachable(Sqlite(), k)
  {
    match k
    case 36 => assert HashWord(116, 114, 7) as nat % 127 == 2 && FiledUnder(Sqlite(), 36, "TRIGGER", 116, 114, 7, 2);
    case 37 => assert HashWord(114, 115, 10) as nat % 127 == 28 && FiledUnder(Sqlite(), 37, "REFERENCES", 114, 115, 10, 28);
    case 38 => assert HashWord(99, 116, 10) as nat % 127 == 91 && FiledUnder(Sqlite(), 38, "CONSTRAINT", 99, 116, 10, 91);
    case _ => assert HashWord(105, 111, 4) as nat % 127 == 110 && FiledUnder(Sqlite(), 39, "INTO", 105, 111, 4, 110);
  }

  lemma Reachable40(k: nat)
    requires 40 <= k < 44
    ensures Reachable(Sqlite(), k)
  {
    match k
    case 40 => assert HashWord(111, 116, 6) as nat % 127 == 103 && FiledUnder(Sqlite(), 40, "OFFSET", 111, 116, 6, 103);
    case 41 => assert HashWord(111, 102, 2) as nat % 127 == 13 && FiledUnder(Sqlite(), 41, "OF", 111, 102, 2, 13);
    case 42 => assert HashWord(115, 116, 3) as nat % 127 == 20 && FiledUnder(Sqlite(), 42, "SET", 115, 116, 3, 20);
    case _ => assert HashWord(116, 121, 9) as nat % 127 == 51 && FiledUnder(Sqlite(), 43, "TEMPORARY", 116, 121, 9, 51);
  }

  lemma Reachable44(k: nat)
    requires 44 <= k < 48
    ensures Reachable(Sqlite(), k)
  {
    match k
    case 44 => assert HashWord(116, 112, 4) as nat % 127 == 5 && FiledUnder(Sqlite(), 44, "TEMP", 116, 112, 4, 5);
    case 45 => assert HashWord(111, 114, 2) as nat % 127 == 105 && FiledUnder(Sqlite(), 45, "OR", 111, 114, 2, 105);
    case 46 => assert HashWord(117, 101, 6) as nat % 127 == 126 && FiledUnder(Sqlite(), 46, "UNIQUE", 117, 101, 6, 126);
    case _ => assert HashWord(113, 121, 5) as nat % 127 == 43 && FiledUnder(Sqlite(), 47, "QUERY", 113, 121, 5, 43);
  }

  lemma Reachable48(k: nat)
    requires 48 <= k < 52
    ensures Reachable(Sqlite(), k)
  {
    match k
    case 48 => assert HashWord(119, 116, 7) as nat % 127 == 8 && FiledUnder(Sqlite(), 48, "WITHOUT", 119, 116, 7, 8);
    case 49 => assert HashWord(119, 104, 4) as nat % 127 == 97 && FiledUnder(Sqlite(), 49, "WITH", 119, 104, 4, 97);
    case 50 => assert HashWord(111, 114, 5) as nat % 127 == 112 && FiledUnder(Sqlite(), 50, "OUTER", 111, 114, 5, 112);
    case _ => assert HashWord(114, 101, 7) as nat % 127 == 97 && FiledUnder(Sqlite(), 51, "RELEASE", 114, 101, 7, 97);
  }

  lemma Reachable52(k: nat)
    requires 52 <= k < 56
    ensures Reachable(Sqlite(), k)
  {
    match k
    case 52 => assert HashWord(97, 104, 6) as nat % 127 == 59 && FiledUnder(Sqlite(), 52, "ATTACH", 97, 104, 6, 59);
    case 53 => assert HashWord(104, 103, 6) as nat % 127 == 20 && FiledUnder(Sqlite(), 53, "HAVING", 104, 103, 6, 20);
    case 54 => assert HashWord(103, 112, 5) as nat % 127 == 74 && FiledUnder(Sqlite(), 54, "GROUP", 103, 112, 5, 74);
    case _ => assert HashWord(117, 101, 6) as nat % 127 == 126 && FiledUnder(Sqlite(), 55, "UPDATE", 117, 101, 6, 126);
  }

  lemma Reachable56(k: nat)
    requires 56 <= k < 60
    ensures Reachable(Sqlite(), k)
  {
    match k
    case 56 => assert HashWord(98, 110, 5) as nat % 127 == 72 && FiledUnder(Sqlite(), 56, "BEGIN", 98, 110, 5, 72);
    case 57 => assert HashWord(105, 114, 5) as nat % 127 == 120 && FiledUnder(Sqlite(), 57, "INNER", 105, 114, 5, 120);
    case 58 => assert HashWord(114, 101, 5) as nat % 127 == 99 && FiledUnder(Sqlite(), 58, "RANGE", 114, 101, 5, 99);
    case _ => assert HashWord(98, 110, 7) as nat % 127 == 70 && FiledUnder(Sqlite(), 59, "BETWEEN", 98, 110, 7, 70);
  }

  lemma Reachable60(k: nat)
    requires 60 <= k < 64
    ensures Reachable(Sqlite(), k)
  {
    match k
    case 60 => assert HashWord(110, 103, 7) as nat % 127 == 11 && FiledUnder(Sqlite(), 60, "NOTHING", 110, 103, 7, 11);
    case 61 => assert HashWord(103, 98, 4) as nat % 127 == 63 && FiledUnder(Sqlite(), 61, "GLOB", 103, 98, 4, 63);
    case 62 => assert HashWord(98, 121, 2) as nat % 127 == 98 && FiledUnder(Sqlite(), 62, "BY", 98, 121, 2, 98);
    case _ => assert HashWord(99, 101, 7) as nat % 127 == 37 && FiledUnder(Sqlite(), 63, "CASCADE", 99, 101, 7, 37);
  }

  lemma Reachable64(k: nat)
    requires 64 <= k < 68
    ensures Reachable(Sqlite(), k)
  {
    match k
    case 64 => assert HashWord(97, 99, 3) as nat % 127 == 47 && FiledUnder(Sqlite(), 64, "ASC", 97, 99, 3, 47);
    case 65 => assert HashWord(100, 101, 6) as nat % 127 == 58 && FiledUnder(Sqlite(), 65, "DELETE", 100, 101, 6, 58);
    case 66 => assert HashWord(99, 101, 4) as nat % 127 == 40 && FiledUnder(Sqlite(), 66, "CASE", 99, 101, 4, 40);
    case _ => assert HashWord(99, 101, 7) as nat % 127 == 37 && FiledUnder(Sqlite(), 67, "COLLATE", 99, 101, 7, 37);
  }

  lemma Reachable68(k: nat)
    requires 68 <= k < 72
    ensures Reachable(Sqlite(), k)
  {
    match k
    case 68 => assert HashWord(99, 101, 6) as nat % 127 == 38 && FiledUnder(Sqlite(), 68, "CREATE", 99, 101, 6, 38);
    case 69 => assert HashWord(99, 101, 12) as nat % 127 == 48 && FiledUnder(Sqlite(), 69, "CURRENT_DATE", 99, 101, 12, 48);
    case 70 => assert HashWord(100, 104, 6) as nat % 127 == 47 && FiledUnder(Sqlite(), 70, "DETACH", 100, 104, 6, 47);
    case _ => assert HashWord(105, 101, 9) as nat % 127 == 3 && FiledUnder(Sqlite(), 71, "IMMEDIATE", 105, 101, 9, 3);
  }

  lemma Reachable72(k: nat)
    requires 72 <= k < 76
    ensures Reachable(Sqlite(), k)
  {
    match k
    case 72 => assert HashWord(106, 110, 4) as nat % 127 == 103 && FiledUnder(Sqlite(), 72, "JOIN", 106, 110, 4, 103);
    case 73 => assert HashWord(105, 116, 6) as nat % 127 == 0 && FiledUnder(Sqlite(), 73, "INSERT", 105, 116, 6, 0);
    case 74 => assert HashWord(108, 101, 4) as nat % 127 == 28 && FiledUnder(Sqlite(), 74, "LIKE", 108, 101, 4, 28);
    case _ => assert HashWord(109, 104, 5) as nat % 127 == 10 && FiledUnder(Sqlite(), 75, "MATCH", 109, 104, 5, 10);
  }

  lemma Reachable76(k: nat)
    requires 76 <= k < 80
    ensures Reachable(Sqlite(), k)
  {
    match k
    case 76 => assert HashWord(112, 110, 4) as nat % 127 == 15 && FiledUnder(Sqlite(), 76, "PLAN", 112, 110, 4, 15);
    case 77 => assert HashWord(97, 101, 7) as nat % 127 == 45 && FiledUnder(Sqlite(), 77, "ANALYZE", 97, 101, 7, 45);
    case 78 => assert HashWord(112, 97, 6) as nat % 127 == 102 && FiledUnder(Sqlite(), 78, "PRAGMA", 112, 97, 6, 102);
    case _ => assert HashWord(97, 116, 5) as nat % 127 == 94 && FiledUnder(Sqlite(), 79, "ABORT", 97, 116, 5, 94);
  }

  lemma Reachable80(k: nat)
    requires 80 <= k < 84
    ensures Reachable(Sqlite(), k)
  {
    match k
    case 80 => assert HashWord(118, 115, 6) as nat % 127 == 8 && FiledUnder(Sqlite(), 80, "VALUES", 118, 115, 6, 8);
    case 81 => assert HashWord(118, 108, 7) as nat % 127 == 28 && FiledUnder(Sqlite(), 81, "VIRTUAL", 118, 108, 7, 28);
    case 82 => assert HashWord(108, 116, 5) as nat % 127 == 106 && FiledUnder(Sqlite(), 82, "LIMIT", 108, 116, 5, 106);
    case _ => assert HashWord(119, 110, 4) as nat % 127 == 19 && FiledUnder(Sqlite(), 83, "WHEN", 119, 110, 4, 19);
  }

  lemma Reachable84(k: nat)
    requires 84 <= k < 88
    ensures Reachable(Sqlite(), k)
  {
    match k
    case 84 => assert HashWord(110, 108, 7) as nat % 127 == 124 && FiledUnder(Sqlite(), 84, "NOTNULL", 110, 108, 7, 124);
    case 85 => assert HashWord(110, 116, 3) as nat % 127 == 104 && FiledUnder(Sqlite(), 85, "NOT", 110, 116, 3, 104);
    case 86 => assert HashWord(110, 111, 2) as nat % 127 == 120 && FiledUnder(Sqlite(), 86, "NO", 110, 111, 2, 120);
    case _ => assert HashWord(110, 108, 4) as nat % 127 == 121 && FiledUnder(Sqlite(), 87, "NULL", 110, 108, 4, 121);
  }

  lemma Reachable88(k: nat)
    requires 88 <= k < 92
    ensures Reachable(Sqlite(), k)
  {
    match k
    case 88 => assert HashWord(119, 101, 5) as nat % 127 == 119 && FiledUnder(Sqlite(), 88, "WHERE", 119, 101, 5, 119);
    case 89 => assert HashWord(114, 101, 9) as nat % 127 == 111 && FiledUnder(Sqlite(), 89, "RECURSIVE", 114, 101, 9, 111);
    case 90 => assert HashWord(97, 114, 5) as nat % 127 == 88 && FiledUnder(Sqlite(), 90, "AFTER", 97, 114, 5, 88);
    case _ => assert HashWord(114, 101, 6) as nat % 127 == 98 && FiledUnder(Sqlite(), 91, "RENAME", 114, 101, 6, 98);
  }

  lemma Reachable92(k: nat)
    requires 92 <= k < 96
    ensures Reachable(Sqlite(), k)
  {
    match k
    case 92 => assert HashWord(97, 100, 3) as nat % 127 == 44 && FiledUnder(Sqlite(), 92, "AND", 97, 100, 3, 44);
    case 93 => assert HashWord(100, 116, 7) as nat % 127 == 76 && FiledUnder(Sqlite(), 93, "DEFAULT", 100, 116, 7, 76);
    case 94 => assert HashWord(97, 116, 13) as nat % 127 == 86 && FiledUnder(Sqlite(), 94, "AUTOINCREMENT", 97, 116, 13, 86);
    case _ => assert HashWord(116, 111, 2) as nat % 127 == 32 && FiledUnder(Sqlite(), 95, "TO", 116, 111, 2, 32);
  }

  lemma Reachable96(k: nat)
    requires 96 <= k < 100
    ensures Reachable(Sqlite(), k)
  {
    match k
    case 96 => assert HashWord(105, 110, 2) as nat % 127 == 109 && FiledUnder(Sqlite(), 96, "IN", 105, 110, 2, 109);
    case 97 => assert HashWord(99, 116, 4) as nat % 127 == 85 && FiledUnder(Sqlite(), 97, "CAST", 99, 116, 4, 85);
    case 98 => assert HashWord(99, 110, 6) as nat % 127 == 65 && FiledUnder(Sqlite(), 98, "COLUMN", 99, 110, 6, 65);
    case _ => assert HashWord(99, 116, 6) as nat % 127 == 87 && FiledUnder(Sqlite(), 99, "COMMIT", 99, 116, 6, 87);
  }

  lemma Reachable100(k: nat)
    requires 100 <= k < 104
    ensures Reachable(Sqlite(), k)
  {
    match k
    case 100 => assert HashWord(99, 116, 8) as nat % 127 == 89 && FiledUnder(Sqlite(), 100, "CONFLICT", 99, 116, 8, 89);
    case 101 => assert HashWord(99, 115, 5) as nat % 127 == 81 && FiledUnder(Sqlite(), 101, "CROSS", 99, 115, 5, 81);
    case 102 => assert HashWord(99, 112, 17) as nat % 127 == 78 && FiledUnder(Sqlite(), 102, "CURRENT_TIMESTAMP", 99, 112, 17, 78);
    case _ => assert HashWord(99, 101, 12) as nat % 127 == 48 && FiledUnder(Sqlite(), 103, "CURRENT_TIME", 99, 101, 12, 48);
  }

  lemma Reachable104(k: nat)
    requires 104 <= k < 108
    ensures Reachable(Sqlite(), k)
  {
    match k
    case 104 => assert HashWord(99, 116, 7) as nat % 127 == 88 && FiledUnder(Sqlite(), 104, "CURRENT", 99, 116, 7, 88);
    case 105 => assert HashWord(112, 110, 9) as nat % 127 == 4 && FiledUnder(Sqlite(), 105, "PARTITION", 112, 110, 9, 4);
    case 106 => assert HashWord(100, 100, 8) as nat % 127 == 53 && FiledUnder(Sqlite(), 106, "DEFERRED", 100, 100, 8, 53);
    case _ => assert HashWord(100, 116, 8) as nat % 127 == 69 && FiledUnder(Sqlite(), 107, "DISTINCT", 100, 116, 8, 69);
  }

  lemma Reachable108(k: nat)
    requires 108 <= k < 112
    ensures Reachable(Sqlite(), k)
  {
    match k
    case 108 => assert HashWord(105, 115, 2) as nat % 127 == 1 && FiledUnder(Sqlite(), 108, "IS", 105, 115, 2, 1);
    case 109 => assert HashWord(100, 112, 4) as nat % 127 == 69 && FiledUnder(Sqlite(), 109, "DROP", 100, 112, 4, 69);
    case 110 => assert HashWord(112, 103, 9) as nat % 127 == 125 && FiledUnder(Sqlite(), 110, "PRECEDING", 112, 103, 9, 125);
    case _ => assert HashWord(102, 108, 4) as nat % 127 == 89 && FiledUnder(Sqlite(), 111, "FAIL", 102, 108, 4, 89);
  }

  lemma Reachable112(k: nat)
    requires 112 <= k < 116
    ensures Reachable(Sqlite(), k)
  {
    match k
    case 112 => assert HashWord(102, 114, 6) as nat % 127 == 73 && FiledUnder(Sqlite(), 112, "FILTER", 102, 114, 6, 73);
    case 113 => assert HashWord(114, 101, 7) as nat % 127 == 97 && FiledUnder(Sqlite(), 113, "REPLACE", 114, 101, 7, 97);
    case 114 => assert HashWord(102, 103, 9) as nat % 127 == 37 && FiledUnder(Sqlite(), 114, "FOLLOWING", 102, 103, 9, 37);
    case _ => assert HashWord(102, 109, 4) as nat % 127 == 92 && FiledUnder(Sqlite(), 115, "FROM", 102, 109, 4, 92);
  }

  lemma Reachable116(k: nat)
    requires 116 <= k < 120
    ensures Reachable(Sqlite(), k)
  {
    match k
    case 116 => assert HashWord(102, 108, 4) as nat % 127 == 89 && FiledUnder(Sqlite(), 116, "FULL", 102, 108, 4, 89);
    case 117 => assert HashWord(105, 102, 2) as nat % 127 == 21 && FiledUnder(Sqlite(), 117, "IF", 105, 102, 2, 21);
    case 118 => assert HashWord(105, 108, 6) as nat % 127 == 103 && FiledUnder(Sqlite(), 118, "ISNULL", 105, 108, 6, 103);
    case _ => assert HashWord(111, 114, 5) as nat % 127 == 112 && FiledUnder(Sqlite(), 119, "ORDER", 111, 114, 5, 112);
  }

  lemma Reachable120(k: nat)
    requires 120 <= k < 124
    ensures Reachable(Sqlite(), k)
  {
    match k
    case 120 => assert HashWord(114, 116, 8) as nat % 127 == 29 && FiledUnder(Sqlite(), 120, "RESTRICT", 114, 116, 8, 29);
    case 121 => assert HashWord(111, 114, 4) as nat % 127 == 111 && FiledUnder(Sqlite(), 121, "OVER", 111, 114, 4, 111);
    case 122 => assert HashWord(114, 116, 5) as nat % 127 == 18 && FiledUnder(Sqlite(), 122, "RIGHT", 114, 116, 5, 18);
    case _ => assert HashWord(114, 107, 8) as nat % 127 == 2 && FiledUnder(Sqlite(), 123, "ROLLBACK", 114, 107, 8, 2);
  }

  lemma Reachable124(k: nat)
    requires 124 <= k < 128
    ensures Reachable(Sqlite(), k)
  {
    match k
    case 124 => assert HashWord(114, 115, 4) as nat % 127 == 22 && FiledUnder(Sqlite(), 124, "ROWS", 114, 115, 4, 22);
    case 125 => assert HashWord(114, 119, 3) as nat % 127 == 47 && FiledUnder(Sqlite(), 125, "ROW", 114, 119, 3, 47);
    case 126 => assert HashWord(117, 100, 9) as nat % 127 == 114 && FiledUnder(Sqlite(), 126, "UNBOUNDED", 117, 100, 9, 114);
    case _ => assert HashWord(117, 110, 5) as nat % 127 == 28 && FiledUnder(Sqlite(), 127, "UNION", 117, 110, 5, 28);
  }

  lemma Reachable128(k: nat)
    requires 128 <= k < 132
    ensures Reachable(Sqlite(), k)
  {
    match k
    case 128 => assert HashWord(117, 103, 5) as nat % 127 == 101 && FiledUnder(Sqlite(), 128, "USING", 117, 103, 5, 101);
    case 129 => assert HashWord(118, 109, 6) as nat % 127 == 26 && FiledUnder(Sqlite(), 129, "VACUUM", 118, 109, 6, 26);
    case 130 => assert HashWord(118, 119, 4) as nat % 127 == 58 && FiledUnder(Sqlite(), 130, "VIEW", 118, 119, 4, 58);
    case _ => assert HashWord(119, 119, 6) as nat % 127 == 64 && FiledUnder(Sqlite(), 131, "WINDOW", 119, 119, 6, 64);
  }

  lemma Reachable132(k: nat)
    requires 132 <= k < 136
    ensures Reachable(Sqlite(), k)
  {
    match k
    case 132 => assert HashWord(100, 111, 2) as nat % 127 == 96 && FiledUnder(Sqlite(), 132, "DO", 100, 111, 2, 96);
    case 133 => assert HashWord(105, 121, 9) as nat % 127 == 71 && FiledUnder(Sqlite(), 133, "INITIALLY", 105, 121, 9, 71);
    case 134 => assert HashWord(97, 108, 3) as nat % 127 == 68 && FiledUnder(Sqlite(), 134, "ALL", 97, 108, 3, 68);
    case _ => assert HashWord(112, 121, 7) as nat % 127 == 45 && FiledUnder(Sqlite(), 135, "PRIMARY", 112, 121, 7, 45);
  }

  /** Every keyword is spelled by its stretch of the text, and has no twin down its chain. */
  lemma AllSpelled(k: nat)
    requires k < N_KEYWORD
    ensures Spelled(Sqlite(), k)
  {
    if k < 1 {
      Spelled0(k);
    } else if k < 3 {
      Spelled1(k);
    } else if k < 5 {
      Spelled3(k);
    } else if k < 8 {
      Spelled5(k);
    } else if k < 9 {
      Spelled8(k);
    } else if k < 11 {
      Spelled9(k);
    } else if k < 13 {
      Spelled11(k);
    } else if k < 14 {
      Spelled13(k);
    } else if k < 16 {
      Spelled14(k);
    } else if k < 18 {
      Spelled16(k);
    } else if k < 20 {
      Spelled18(k);
    } else if k < 23 {
      Spelled20(k);
    } else if k < 24 {
      Spelled23(k);
    } else if k < 26 {
      Spelled24(k);
    } else if k < 27 {
      Spelled26(k);
    } else if k < 29 {
      Spelled27(k);
    } else if k < 31 {
      Spelled29(k);
    } else if k < 32 {
      Spelled31(k);
    } else if k < 33 {
      Spelled32(k);
    } else if k < 34 {
      Spelled33(k);
    } else if k < 35 {
      Spelled34(k);
    } else if k < 36 {
      Spelled35(k);
    } else if k < 37 {
      Spelled36(k);
    } else if k < 38 {
      Spelled37(k);
    } else if k < 39 {
      Spelled38(k);
    } else if k < 42 {
      Spelled39(k);
    } else if k < 44 {
      Spelled42(k);
    } else if k < 47 {
      Spelled44(k);
    } else if k < 49 {
      Spelled47(k);
    } else if k < 51 {
      Spelled49(k);
    } else if k < 52 {
      Spelled51(k);
    } else if k < 54 {
      Spelled52(k);
    } else if k < 56 {
      Spelled54(k);
    } else if k < 58 {
      Spelled56(k);
    } else if k < 60 {
      Spelled58(k);
    } else if k < 62 {
      Spelled60(k);
    } else if k < 65 {
      Spelled62(k);
    } else if k < 67 {
      Spelled65(k);
    } else if k < 68 {
      Spelled67(k);
    } else if k < 69 {
      Spelled68(k);
    } else if k < 70 {
      Spelled69(k);
    } else if k < 71 {
      Spelled70(k);
    } else if k < 72 {
      Spelled71(k);
    } else if k < 74 {
      Spelled72(k);
    } else if k < 76 {
      Spelled74(k);
    } else if k < 78 {
      Spelled76(k);
    } else if k < 80 {
      Spelled78(k);
    } else if k < 81 {
      Spelled80(k);
    } else if k < 83 {
      Spelled81(k);
    } else if k < 85 {
      Spelled83(k);
    } else if k < 87 {
      Spelled85(k);
    } else if k < 89 {
      Spelled87(k);
    } else if k < 90 {
      Spelled89(k);
    } else if k < 92 {
      Spelled90(k);
    } else if k < 94 {
      Spelled92(k);
    } else if k < 95 {
      Spelled94(k);
    } else if k < 97 {
      Spelled95(k);
    } else if k < 99 {
      Spelled97(k);
    } else if k < 100 {
      Spelled99(k);
    } else if k < 101 {
      Spelled100(k);
    } else if k < 102 {
      Spelled101(k);
    } else if k < 103 {
      Spelled102(k);
    } else if k < 104 {
      Spelled103(k);
    } else if k < 105 {
      Spelled104(k);
    } else if k < 106 {
      Spelled105(k);
    } else if k < 107 {
      Spelled106(k);
    } else if k < 109 {
      Spelled107(k);
    } else if k < 110 {
      Spelled109(k);
    } else if k < 111 {
      Spelled110(k);
    } else if k < 113 {
      Spelled111(k);
    } else if k < 114 {
      Spelled113(k);
    } else if k < 115 {
      Spelled114(k);
    } else if k < 117 {
      Spelled115(k);
    } else if k < 119 {
      Spelled117(k);
    } else if k < 120 {
      Spelled119(k);
    } else if k < 122 {
      Spelled120(k);
    } else if k < 123 {
      Spelled122(k);
    } else if k < 125 {
      Spelled123(k);
    } else if k < 127 {
      Spelled125(k);
    } else if k < 129 {
      Spelled127(k);
    } else if k < 131 {
      Spelled129(k);
    } else if k < 133 {
      Spelled131(k);
    } else if k < 135 {
      Spelled133(k);
    } else {
      Spelled135(k);
    }
  }

  /** Every keyword is reachable on the chain of its hash value. */
  lemma AllReachable(k: nat)
    requires k < N_KEYWORD
    ensures Reachable(Sqlite(), k)
  {
    if k < 4 {
      Reachable0(k);
    } else if k < 8 {
      Reachable4(k);
    } else if k < 12 {
      Reachable8(k);
    } else if k < 16 {
      Reachable12(k);
    } else if k < 20 {
      Reachable16(k);
    } else if k < 24 {
      Reachable20(k);
    } else if k < 28 {
      Reachable24(k);
    } else if k < 32 {
      Reachable28(k);
    } else if k < 36 {
      Reachable32(k);
    } else if k < 40 {
      Reachable36(k);
    } else if k < 44 {
      Reachable40(k);
    } else if k < 48 {
      Reachable44(k);
    } else if k < 52 {
      Reachable48(k);
    } else if k < 56 {
      Reachable52(k);
    } else if k < 60 {
      Reachable56(k);
    } else if k < 64 {
      Reachable60(k);
    } else if k < 68 {
      Reachable64(k);
    } else if k < 72 {
      Reachable68(k);
    } else if k < 76 {
      Reachable72(k);
    } else if k < 80 {
      Reachable76(k);
    } else if k < 84 {
      Reachable80(k);
    } else if k < 88 {
      Reachable84(k);
    } else if k < 92 {
      Reachable88(k);
    } else if k < 96 {
      Reachable92(k);
    } else if k < 100 {
      Reachable96(k);
    } else if k < 104 {
      Reachable100(k);
    } else if k < 108 {
      Reachable104(k);
    } else if k < 112 {
      Reachable108(k);
    } else if k < 116 {
      Reachable112(k);
    } else if k < 120 {
      Reachable116(k);
    } else if k < 124 {
      Reachable120(k);
    } else if k < 128 {
      Reachable124(k);
    } else if k < 132 {
      Reachable128(k);
    } else {
      Reachable132(k);
    }
  }
}
