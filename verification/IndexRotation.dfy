/**
 The commit of the certificate database (rotate_index in apps.c): the new database and its
 attribute file are renamed into place, the live ones to the old suffix, and what was done
 is undone when a rename fails. A directory maps names to contents; a rename may fail.
 */
module IndexRotation {
  import opened Wrappers

  type Files = map<string, seq<char>>

  const BSIZE: nat := 256

  // ----- Names

  datatype Names = Names(live: string, next: string, prior: string,
                         attr: string, nextAttr: string, priorAttr: string)

  function NamesOf(dbfile: string, newSuffix: string, oldSuffix: string): Names {
    Names(dbfile, dbfile + "." + newSuffix, dbfile + "." + oldSuffix,
          dbfile + ".attr", dbfile + ".attr." + newSuffix, dbfile + ".attr." + oldSuffix)
  }

  predicate Distinct(n: Names) {
    && n.live != n.next && n.live != n.prior && n.live != n.attr && n.live != n.nextAttr && n.live != n.priorAttr
    && n.next != n.prior && n.next != n.attr && n.next != n.nextAttr && n.next != n.priorAttr
    && n.prior != n.attr && n.prior != n.nextAttr && n.prior != n.priorAttr
    && n.attr != n.nextAttr && n.attr != n.priorAttr
    && n.nextAttr != n.priorAttr
  }

  lemma SamePrefix(p: string, a: string, b: string)
    ensures p + a == p + b <==> a == b
  {
    assert (p + a)[|p|..] == a && (p + b)[|p|..] == b;
  }

  /** The suffixes for which no file of the rotation has the name of another. */
  lemma DistinctExactly(dbfile: string, newSuffix: string, oldSuffix: string)
    ensures Distinct(NamesOf(dbfile, newSuffix, oldSuffix)) <==>
            && newSuffix != oldSuffix && newSuffix != "attr" && oldSuffix != "attr"
            && newSuffix != "attr." + oldSuffix && oldSuffix != "attr." + newSuffix
  {
    var n := NamesOf(dbfile, newSuffix, oldSuffix);
    var p := dbfile + ".";
    assert n.attr == p + "attr";
    assert n.nextAttr == p + ("attr." + newSuffix);
    assert n.priorAttr == p + ("attr." + oldSuffix);
    SamePrefix(p, newSuffix, oldSuffix);
    SamePrefix(p, newSuffix, "attr");
    SamePrefix(p, oldSuffix, "attr");
    SamePrefix(p, newSuffix, "attr." + oldSuffix);
    SamePrefix(p, oldSuffix, "attr." + newSuffix);
    SamePrefix(p + "attr.", newSuffix, oldSuffix);
    assert n.nextAttr == p + "attr." + newSuffix && n.priorAttr == p + "attr." + oldSuffix;
  }

  /** The length check of rotate_index. */
  predicate TooLong(dbfile: string, newSuffix: string, oldSuffix: string) {
    var i, j := |dbfile| + |oldSuffix|, |dbfile| + |newSuffix|;
    (if i > j then i else j) + 6 >= BSIZE
  }

  /** The check refuses exactly the names that, with their terminator, overflow a buffer. */
  lemma TooLongExactly(dbfile: string, newSuffix: string, oldSuffix: string)
    ensures var n := NamesOf(dbfile, newSuffix, oldSuffix);
            TooLong(dbfile, newSuffix, oldSuffix) <==>
              exists name <- [n.next, n.prior, n.attr, n.nextAttr, n.priorAttr] :: |name| + 1 > BSIZE
  {
    var n := NamesOf(dbfile, newSuffix, oldSuffix);
    var all := [n.next, n.prior, n.attr, n.nextAttr, n.priorAttr];
    assert n.nextAttr == all[3] && n.priorAttr == all[4];
  }

  // ----- What a rotation does to the files

  /** What is under a name, if anything. */
  function Get(files: Files, name: string): Option<seq<char>> {
    if name in files then Some(files[name]) else None
  }

  /** A rename that works, or the rename of a file that is not there. */
  function Move(files: Files, from: string, to: string): (r: Files)
    ensures forall name :: Get(r, name) ==
                           if from !in files || from == to then Get(files, name)
                           else if name == to then Get(files, from)
                           else if name == from then None
                           else Get(files, name)
  {
    if from in files && from != to then files[to := files[from]] - {from} else files
  }

  /** The files after the first renames of the four. */
  function After(files: Files, n: Names, renames: nat): Files
    requires renames <= 4
  {
    var one := Move(files, n.live, n.prior);
    var two := Move(one, n.next, n.live);
    var three := Move(two, n.attr, n.priorAttr);
    var four := Move(three, n.nextAttr, n.attr);
    if renames == 0 then files
    else if renames == 1 then one
    else if renames == 2 then two
    else if renames == 3 then three
    else four
  }

  /** The files after the first renames are undone, last one first. */
  function Undo(files: Files, n: Names, renames: nat): Files
    requires renames <= 3
    decreases renames
  {
    if renames == 0 then files
    else if renames == 1 then Move(files, n.prior, n.live)
    else if renames == 2 then Undo(Move(files, n.live, n.next), n, 1)
    else Undo(Move(files, n.priorAttr, n.attr), n, 2)
  }

  predicate SameLiveAndNew(a: Files, b: Files, n: Names) {
    && Get(a, n.live) == Get(b, n.live) && Get(a, n.next) == Get(b, n.next)
    && Get(a, n.attr) == Get(b, n.attr) && Get(a, n.nextAttr) == Get(b, n.nextAttr)
  }

  /** A rotation that goes through: each new file is live, each live one old, and nothing else changes. */
  lemma Commits(files: Files, n: Names, name: string)
    requires Distinct(n)
    requires n.live in files && n.attr in files && n.next in files && n.nextAttr in files
    ensures Get(After(files, n, 4), name) ==
            if name == n.live then Get(files, n.next)
            else if name == n.prior then Get(files, n.live)
            else if name == n.attr then Get(files, n.nextAttr)
            else if name == n.priorAttr then Get(files, n.attr)
            else if name == n.next || name == n.nextAttr then None
            else Get(files, name)
  {
  }

  /** The second rename has moved the new database, so it was there. */
  predicate Reached(files: Files, n: Names, renames: nat) {
    renames >= 2 ==> n.next in files
  }

  /** No stale copy stands in for a live file that was not there. */
  predicate NoStale(files: Files, n: Names, renames: nat) {
    && (renames >= 1 && n.live !in files ==> n.prior !in files)
    && (renames >= 3 && n.attr !in files ==> n.priorAttr !in files)
  }

  /**
   What each name holds after the first renames are done and undone: the old copies are
   gone, unless a live file was missing, whose old copy is now live.
   */
  lemma Undone(files: Files, n: Names, renames: nat, name: string)
    requires Distinct(n) && renames <= 3 && Reached(files, n, renames)
    ensures Get(Undo(After(files, n, renames), n, renames), name) ==
            if renames >= 1 && name == n.live && n.live !in files then Get(files, n.prior)
            else if renames >= 1 && name == n.prior then None
            else if renames >= 3 && name == n.attr && n.attr !in files then Get(files, n.priorAttr)
            else if renames >= 3 && name == n.priorAttr then None
            else Get(files, name)
  {
  }

  /**
   An undone rotation leaves the live and the new files as they were, exactly if no live
   file it came to was missing while an old copy of it lay about.
   */
  lemma UndoneExactly(files: Files, n: Names, renames: nat)
    requires Distinct(n) && renames <= 3 && Reached(files, n, renames)
    ensures SameLiveAndNew(files, Undo(After(files, n, renames), n, renames), n) <==> NoStale(files, n, renames)
  {
    Undone(files, n, renames, n.live);
    Undone(files, n, renames, n.next);
    Undone(files, n, renames, n.attr);
    Undone(files, n, renames, n.nextAttr);
  }

  /** A missing database and a stale old copy: the failed rotation makes the stale copy live. */
  lemma StaleComesBack()
    ensures var n := NamesOf("index", "new", "old");
            var files := map["index.old" := "stale"];
            Undo(After(files, n, 1), n, 1) == map["index" := "stale"]
  {
    var n := NamesOf("index", "new", "old");
    assert n.live == "index" && n.prior == "index.old";
    assert After(map["index.old" := "stale"], n, 0) == map["index.old" := "stale"];
  }

  /** What was live is still there, under its own name or the old one. */
  predicate Kept(before: Files, now: Files, live: string, prior: string) {
    live in before ==> Get(now, live) == Get(before, live) || Get(now, prior) == Get(before, live)
  }

  predicate BothKept(before: Files, now: Files, n: Names) {
    Kept(before, now, n.live, n.prior) && Kept(before, now, n.attr, n.priorAttr)
  }

  /** What was live is under its old name. */
  predicate Aside(before: Files, now: Files, live: string, prior: string) {
    live in before ==> Get(now, prior) == Get(before, live)
  }

  /** The states a directory goes through lose neither the database nor its attribute file. */
  ghost predicate NeverLost(before: Files, past: seq<Files>, n: Names) {
    forall s | 0 <= s < |past| :: BothKept(before, past[s], n)
  }

  /** The files after a call to rename. */
  function Called(files: Files, from: string, to: string, r: Outcome): Files {
    if r == Done then Move(files, from, to) else files
  }

  datatype Outcome = Done | Missing | Failed

  /** After each rename that gets by, what was live is safe. */
  lemma ForwardKeeps(f: Files, n: Names)
    requires Distinct(n)
    ensures forall k: nat | 1 <= k <= 4 :: Aside(f, After(f, n, k), n.live, n.prior) && BothKept(f, After(f, n, k), n)
    ensures forall k: nat | 1 <= k <= 2 :: Get(After(f, n, k), n.attr) == Get(f, n.attr)
    ensures n.attr !in After(f, n, 3) && Aside(f, After(f, n, 3), n.attr, n.priorAttr)
  {
  }

  /** The states while a rotation is undone: what was live moves back, or stays where it is. */
  lemma UndoingKeeps(before: Files, now: Files, n: Names, q: Outcome, r: Outcome, s: Outcome)
    requires Distinct(n) && Aside(before, now, n.live, n.prior)
    requires Get(now, n.attr) == Get(before, n.attr) || Aside(before, now, n.attr, n.priorAttr)
    requires n.attr in now ==> q != Done
    ensures var one := Called(now, n.priorAttr, n.attr, q);
            var two := Called(one, n.live, n.next, r);
            BothKept(before, one, n) && BothKept(before, two, n)
            && BothKept(before, Called(two, n.prior, n.live, s), n)
  {
  }

  // ----- The directory

  /** A directory, and which of the calls to rename fail for a reason of their own. */
  class Directory {
    var files: Files
    var calls: nat
    const fault: nat -> bool
    ghost var past: seq<Files>

    constructor (files: Files, fault: nat -> bool)
      ensures this.files == files && this.fault == fault && calls == 0 && past == [files]
    {
      this.files, this.fault, calls := files, fault, 0;
      past := [files];
    }

    method Rename(from: string, to: string) returns (r: Outcome)
      modifies this
      ensures r == if fault(old(calls)) then Failed else if from in old(files) then Done else Missing
      ensures files == if r == Done then Move(old(files), from, to) else old(files)
      ensures calls == old(calls) + 1 && past == old(past) + [files]
    {
      if fault(calls) {
        r := Failed;
      } else if from !in files {
        r := Missing;
      } else {
        r := Done;
        if from != to {
          files := files[to := files[from]] - {from};
        }
      }
      calls := calls + 1;
      past := past + [files];
    }
  }

  /** How many of the four renames get by: a missing live file is no failure, a missing new one is. */
  function Passed(files: Files, n: Names, fault: nat -> bool): (renames: nat)
    ensures renames <= 4
  {
    if fault(0) then 0
    else if fault(1) || n.next !in After(files, n, 1) then 1
    else if fault(2) then 2
    else if fault(3) || n.nextAttr !in After(files, n, 3) then 3
    else 4
  }

  lemma Longer(before: Files, past: seq<Files>, now: Files, n: Names)
    requires NeverLost(before, past, n) && BothKept(before, now, n)
    ensures NeverLost(before, past + [now], n)
  {
  }

  /** One of the four renames: it gets by, or what was live is still where it was. */
  method Forward(dir: Directory, n: Names, passed: nat, ghost f: Files) returns (r: Outcome)
    requires passed <= 3 && dir.files == After(f, n, passed)
    requires Distinct(n) ==> NeverLost(f, dir.past, n)
    modifies dir
    ensures r == (if dir.fault(old(dir.calls)) then Failed
                  else if [n.live, n.next, n.attr, n.nextAttr][passed] in old(dir.files) then Done else Missing)
    ensures dir.files == if r == Failed then After(f, n, passed) else After(f, n, passed + 1)
    ensures dir.calls == old(dir.calls) + 1
    ensures Distinct(n) ==> NeverLost(f, dir.past, n)
  {
    ghost var past := dir.past;
    if passed == 0 {
      r := dir.Rename(n.live, n.prior);
    } else if passed == 1 {
      r := dir.Rename(n.next, n.live);
    } else if passed == 2 {
      r := dir.Rename(n.attr, n.priorAttr);
    } else {
      r := dir.Rename(n.nextAttr, n.attr);
    }
    if Distinct(n) {
      ForwardKeeps(f, n);
      Longer(f, past, dir.files, n);
    }
  }

  /** The renames that undo the first ones, as each of the error branches does them. */
  method UndoRenames(dir: Directory, n: Names, passed: nat, ghost f: Files)
    requires 1 <= passed <= 3 && dir.files == After(f, n, passed)
    requires Distinct(n) ==> NeverLost(f, dir.past, n)
    modifies dir
    ensures (forall c: nat | old(dir.calls) <= c :: !dir.fault(c)) ==>
              dir.files == Undo(After(f, n, passed), n, passed)
    ensures Distinct(n) ==> NeverLost(f, dir.past, n)
  {
    var q, r := Failed, Failed;
    if passed == 3 {
      q := dir.Rename(n.priorAttr, n.attr);
    }
    ghost var one, past1 := dir.files, dir.past;
    if passed >= 2 {
      r := dir.Rename(n.live, n.next);
    }
    ghost var two, past2 := dir.files, dir.past;
    var s := dir.Rename(n.prior, n.live);
    if Distinct(n) {
      ForwardKeeps(f, n);
      UndoingKeeps(f, After(f, n, passed), n, q, r, s);
      assert NeverLost(f, past1, n);
      assert NeverLost(f, past2, n);
      Longer(f, past2, dir.files, n);
    }
  }

  /** No rename fails any more once a rotation is being undone. */
  ghost predicate UndoWorks(files: Files, n: Names, fault: nat -> bool) {
    forall c: nat | Passed(files, n, fault) < c :: !fault(c)
  }

  /** If the rotation fails, the live and the new files are as they were. */
  ghost predicate Restores(files: Files, n: Names, fault: nat -> bool) {
    var passed := Passed(files, n, fault);
    passed < 4 ==> SameLiveAndNew(files, Undo(After(files, n, passed), n, passed), n)
  }

  /** For one pattern of failures, what can be told from the files alone. */
  lemma RestoresUnder(files: Files, n: Names, fault: nat -> bool)
    requires Distinct(n) && Passed(files, n, fault) < 4
    ensures Restores(files, n, fault) <==> NoStale(files, n, Passed(files, n, fault))
  {
    assert Get(After(files, n, 1), n.next) == Get(files, n.next);
    UndoneExactly(files, n, Passed(files, n, fault));
  }

  /**
   Whatever fails, every failed rotation restores the live and the new files, exactly if
   there is no stale copy of a missing database, nor, where there is a new database to come
   as far, of a missing attribute file. A caller can check that beforehand.
   */
  lemma RestoresAlways(files: Files, n: Names)
    requires Distinct(n)
    ensures (forall fault: nat -> bool | UndoWorks(files, n, fault) :: Restores(files, n, fault)) <==>
            NoStale(files, n, if n.next in files then 3 else 1)
  {
    var last := if n.next in files then 3 else 1;
    assert Get(After(files, n, 1), n.next) == Get(files, n.next);
    if NoStale(files, n, last) {
      forall fault: nat -> bool | UndoWorks(files, n, fault)
        ensures Restores(files, n, fault)
      {
        if Passed(files, n, fault) < 4 {
          RestoresUnder(files, n, fault);
        }
      }
    } else {
      var fault: nat -> bool := c => c == last;
      assert Passed(files, n, fault) == last;
      assert UndoWorks(files, n, fault);
      RestoresUnder(files, n, fault);
    }
  }

  /** The renames of rotate_index, between its name buffers. */
  method RotateNames(dir: Directory, n: Names) returns (ret: int)
    requires dir.past == [dir.files] && dir.calls == 0
    modifies dir
    ensures var f, passed := old(dir.files), Passed(old(dir.files), n, dir.fault);
            && ret == (if passed == 4 then 1 else 0)
            && (ret == 1 ==> dir.files == After(f, n, 4))
            && (ret == 0 && UndoWorks(f, n, dir.fault) ==> dir.files == Undo(After(f, n, passed), n, passed))
            && (Distinct(n) ==> NeverLost(f, dir.past, n))
  {
    ghost var f := dir.files;
    var r := Forward(dir, n, 0, f);
    if r == Failed {
      return 0;
    }
    r := Forward(dir, n, 1, f);
    if r != Done {
      UndoRenames(dir, n, 1, f);
      return 0;
    }
    r := Forward(dir, n, 2, f);
    if r == Failed {
      UndoRenames(dir, n, 2, f);
      return 0;
    }
    r := Forward(dir, n, 3, f);
    if r != Done {
      UndoRenames(dir, n, 3, f);
      return 0;
    }
    return 1;
  }

  // ----- In the terms of the call

  predicate SuffixesApart(newSuffix: string, oldSuffix: string) {
    && newSuffix != oldSuffix && newSuffix != "attr" && oldSuffix != "attr"
    && newSuffix != "attr." + oldSuffix && oldSuffix != "attr." + newSuffix
  }

  /** The new files are live, the live ones old, and nothing else has changed. */
  ghost predicate Committed(f: Files, g: Files, db: string, newSuffix: string, oldSuffix: string) {
    && Get(g, db) == Get(f, db + "." + newSuffix)
    && Get(g, db + ".attr") == Get(f, db + ".attr." + newSuffix)
    && Get(g, db + "." + oldSuffix) == Get(f, if db in f then db else db + "." + oldSuffix)
    && Get(g, db + ".attr." + oldSuffix) == Get(f, if db + ".attr" in f then db + ".attr" else db + ".attr." + oldSuffix)
    && Get(g, db + "." + newSuffix) == Get(g, db + ".attr." + newSuffix) == None
    && forall name | name !in {db, db + ".attr", db + "." + newSuffix, db + "." + oldSuffix,
                               db + ".attr." + newSuffix, db + ".attr." + oldSuffix} :: Get(g, name) == Get(f, name)
  }

  /** The live and the new files are as they were. */
  predicate Restored(f: Files, g: Files, db: string, newSuffix: string) {
    && Get(g, db) == Get(f, db) && Get(g, db + "." + newSuffix) == Get(f, db + "." + newSuffix)
    && Get(g, db + ".attr") == Get(f, db + ".attr")
    && Get(g, db + ".attr." + newSuffix) == Get(f, db + ".attr." + newSuffix)
  }

  /** The rename in this place, counted from 0, is the one that stops the rotation. */
  ghost predicate StopsAt(f: Files, db: string, newSuffix: string, fault: nat -> bool, p: nat) {
    && (forall c: nat | c < p :: !fault(c)) && (p > 1 ==> db + "." + newSuffix in f)
    && (fault(p) || (p == 1 && db + "." + newSuffix !in f) || (p == 3 && db + ".attr." + newSuffix !in f))
  }

  /** A live file that was missing when its turn came had an old copy. */
  predicate StaleCopy(f: Files, db: string, oldSuffix: string, p: nat) {
    || (p >= 1 && db !in f && db + "." + oldSuffix in f)
    || (p >= 3 && db + ".attr" !in f && db + ".attr." + oldSuffix in f)
  }

  /** At no moment is the database or its attribute file lost. */
  ghost predicate NothingLost(f: Files, past: seq<Files>, db: string, oldSuffix: string) {
    forall s | 0 <= s < |past| ::
      && (db in f ==> Some(f[db]) in {Get(past[s], db), Get(past[s], db + "." + oldSuffix)})
      && (db + ".attr" in f ==>
            Some(f[db + ".attr"]) in {Get(past[s], db + ".attr"), Get(past[s], db + ".attr." + oldSuffix)})
  }

  lemma CallPasses(f: Files, db: string, newSuffix: string, oldSuffix: string, fault: nat -> bool)
    requires SuffixesApart(newSuffix, oldSuffix)
    ensures var passed := Passed(f, NamesOf(db, newSuffix, oldSuffix), fault);
            && (passed == 4 <==> db + "." + newSuffix in f && db + ".attr." + newSuffix in f
                                 && forall c: nat | c < 4 :: !fault(c))
            && forall p: nat | p < 4 && StopsAt(f, db, newSuffix, fault, p) :: passed == p
  {
    var n := NamesOf(db, newSuffix, oldSuffix);
    DistinctExactly(db, newSuffix, oldSuffix);
    assert Get(After(f, n, 1), n.next) == Get(f, n.next);
    assert Get(After(f, n, 3), n.nextAttr) == Get(f, n.nextAttr);
  }

  lemma CallCommits(f: Files, db: string, newSuffix: string, oldSuffix: string)
    requires SuffixesApart(newSuffix, oldSuffix) && db + "." + newSuffix in f && db + ".attr." + newSuffix in f
    ensures Committed(f, After(f, NamesOf(db, newSuffix, oldSuffix), 4), db, newSuffix, oldSuffix)
  {
    DistinctExactly(db, newSuffix, oldSuffix);
  }

  /** rotate_index. The suffixes in use, "new" and "old", are apart. */
  method RotateIndex(dir: Directory, dbfile: string, newSuffix: string, oldSuffix: string) returns (ret: int)
    requires dir.past == [dir.files] && dir.calls == 0
    modifies dir
    ensures TooLong(dbfile, newSuffix, oldSuffix) ==>
              ret == 0 && dir.past == old(dir.past) && dir.files == old(dir.files)
    ensures !TooLong(dbfile, newSuffix, oldSuffix) ==>
              var n, f := NamesOf(dbfile, newSuffix, oldSuffix), old(dir.files);
              var passed := Passed(f, n, dir.fault);
              && ret == (if passed == 4 then 1 else 0)
              && (ret == 1 ==> dir.files == After(f, n, 4))
              && (ret == 0 && UndoWorks(f, n, dir.fault) ==>
                    && dir.files == Undo(After(f, n, passed), n, passed)
                    && (Distinct(n) ==> (SameLiveAndNew(f, dir.files, n) <==> NoStale(f, n, passed))))
              && (Distinct(n) ==> NeverLost(f, dir.past, n))
    ensures SuffixesApart(newSuffix, oldSuffix) ==>
              var f := old(dir.files);
              var fits := |dbfile| + |newSuffix| + 6 < 256 && |dbfile| + |oldSuffix| + 6 < 256;
              && (ret == 1 <==> fits && dbfile + "." + newSuffix in f && dbfile + ".attr." + newSuffix in f
                                && forall c: nat | c < 4 :: !dir.fault(c))
              && (ret == 1 ==> Committed(f, dir.files, dbfile, newSuffix, oldSuffix))
              && (fits ==> forall p: nat | p < 4 && StopsAt(f, dbfile, newSuffix, dir.fault, p)
                                          && forall c: nat | p < c :: !dir.fault(c) ::
                    Restored(f, dir.files, dbfile, newSuffix) <==> !StaleCopy(f, dbfile, oldSuffix, p))
              && NothingLost(f, dir.past, dbfile, oldSuffix)
  {
    ghost var f := dir.files;
    var n := NamesOf(dbfile, newSuffix, oldSuffix);
    var i, j := |dbfile| + |oldSuffix|, |dbfile| + |newSuffix|;
    if i > j {
      j := i;
    }
    if j + 6 >= BSIZE {
      return 0;
    }
    if Distinct(n) && Passed(dir.files, n, dir.fault) < 4 {
      RestoresUnder(dir.files, n, dir.fault);
    }
    ret := RotateNames(dir, n);
    if SuffixesApart(newSuffix, oldSuffix) {
      DistinctExactly(dbfile, newSuffix, oldSuffix);
      CallPasses(f, dbfile, newSuffix, oldSuffix, dir.fault);
      if ret == 1 {
        CallCommits(f, dbfile, newSuffix, oldSuffix);
      }
    }
  }
}
