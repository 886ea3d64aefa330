/**
 The revocation field of the certificate database (make_revocation_str and unpack_revinfo in
 ca.c): a time, and optionally a reason and an argument, separated by commas. What the
 libraries accept as a time or an object identifier is given by predicates.
 */
module Revocation {
  import opened CStrings
  import opened Sequences
  import opened Wrappers

  // ----- Reasons

  const NUM_REASONS: nat := 11

  /** crl_reasons: eight reasons, and three pseudo reasons that take an argument. */
  function CrlReason(i: nat): (reason: string)
    requires i < NUM_REASONS
    ensures ',' !in reason && '\0' !in reason && |reason| > 0
  {
    if i == 0 then "unspecified"
    else if i == 1 then "keyCompromise"
    else if i == 2 then "CACompromise"
    else if i == 3 then "affiliationChanged"
    else if i == 4 then "superseded"
    else if i == 5 then "cessationOfOperation"
    else if i == 6 then "certificateHold"
    else if i == 7 then "removeFromCRL"
    else if i == 8 then "holdInstruction"
    else if i == 9 then "keyTime"
    else "CAkeyTime"
  }

  /** The codes of section 5.3.1 of RFC 5280; the standard skips 7. */
  datatype CrlCode = Unspecified | KeyCompromise | CaCompromise | AffiliationChanged | Superseded
                   | CessationOfOperation | CertificateHold | RemoveFromCrl

  function Number(code: CrlCode): int {
    match code
    case Unspecified => 0
    case KeyCompromise => 1
    case CaCompromise => 2
    case AffiliationChanged => 3
    case Superseded => 4
    case CessationOfOperation => 5
    case CertificateHold => 6
    case RemoveFromCrl => 8
  }

  const NO_STATUS: int := -1

  function Lower(c: char): char {
    if 'A' <= c <= 'Z' then c + ('a' - 'A') else c
  }

  /** strcasecmp finds no difference. */
  predicate SameIgnoringCase(a: string, b: string) {
    |a| == |b| && forall k | 0 <= k < |a| :: Lower(a[k]) == Lower(b[k])
  }

  /** The first of the reasons from i on, below n, with that name. */
  function FindReason(s: string, i: nat, n: nat): (r: Option<nat>)
    requires i <= n <= NUM_REASONS
    ensures r.Some? ==> i <= r.value < n && SameIgnoringCase(s, CrlReason(r.value))
    ensures r.None? ==> forall k | i <= k < n :: !SameIgnoringCase(s, CrlReason(k))
    decreases n - i
  {
    if i == n then None
    else if SameIgnoringCase(s, CrlReason(i)) then Some(i)
    else FindReason(s, i + 1, n)
  }

  method SearchReasons(s: string, n: nat) returns (r: Option<nat>)
    requires n <= NUM_REASONS
    ensures r == FindReason(s, 0, n)
  {
    var i := 0;
    while i < n
      invariant i <= n
      invariant FindReason(s, 0, n) == FindReason(s, i, n)
    {
      if SameIgnoringCase(s, CrlReason(i)) {
        return Some(i);
      }
      i := i + 1;
    }
    r := None;
  }

  lemma ReasonsDiffer(i: nat, k: nat)
    requires i < NUM_REASONS && k < NUM_REASONS && SameIgnoringCase(CrlReason(i), CrlReason(k))
    ensures i == k
  {
    var a, b := CrlReason(i), CrlReason(k);
    assert |a| == |b|;
    assert Lower(a[0]) == Lower(b[0]);
  }

  lemma FoundAsItself(s: string, i: nat, n: nat)
    requires i < n <= NUM_REASONS && SameIgnoringCase(s, CrlReason(i))
    ensures FindReason(s, 0, n) == Some(i)
  {
    var k := FindReason(s, 0, n).value;
    forall j | 0 <= j < |s|
      ensures Lower(CrlReason(i)[j]) == Lower(CrlReason(k)[j])
    {
      assert Lower(s[j]) == Lower(CrlReason(i)[j]);
      assert Lower(s[j]) == Lower(CrlReason(k)[j]);
    }
    ReasonsDiffer(i, k);
  }

  // ----- Writing the field

  const REV_NONE: int := 0
  const REV_CRL_REASON: int := 1
  const REV_HOLD: int := 2
  const REV_KEY_COMPROMISE: int := 3
  const REV_CA_COMPROMISE: int := 4

  /** What the libraries take as an object identifier, as a generalized time and as a UTC time. */
  datatype Library = Library(oid: string -> bool, time: string -> bool, utc: string -> bool)

  /** The argument goes with the type. */
  predicate Accepted(revType: int, revArg: string, lib: Library) {
    && (revType == REV_CRL_REASON ==> FindReason(revArg, 0, 8).Some?)
    && (revType == REV_HOLD ==> lib.oid(revArg))
    && (revType == REV_KEY_COMPROMISE || revType == REV_CA_COMPROMISE ==> lib.time(revArg))
  }

  /** revtime[,reason[,extra]] */
  function Field(time: string, reason: Option<string>, other: Option<string>): string {
    time
    + (if reason.Some? then "," + reason.value else "")
    + (if other.Some? then "," + other.value else "")
  }

  /** BUF_strlcpy and BUF_strlcat: as much as fits with the terminator. */
  function StrLCat(dst: string, src: string, size: nat): string
    requires |dst| < size
  {
    if |dst| + |src| < size then dst + src else dst + src[..size - 1 - |dst|]
  }

  function ReasonOf(revType: int, revArg: string): Option<string> {
    if revType == REV_CRL_REASON then
      var found := FindReason(revArg, 0, 8);
      if found.Some? then Some(CrlReason(found.value)) else None
    else if revType == REV_HOLD then Some("holdInstruction")
    else if revType == REV_KEY_COMPROMISE then Some("keyTime")
    else if revType == REV_CA_COMPROMISE then Some("CAkeyTime")
    else None
  }

  function ExtraOf(revType: int, revArg: string): Option<string> {
    if revType in {REV_HOLD, REV_KEY_COMPROMISE, REV_CA_COMPROMISE} then Some(revArg) else None
  }

  /** The copies at the end of make_revocation_str: the buffer is sized so that nothing is cut off. */
  method BuildField(now: string, reason: Option<string>, other: Option<string>) returns (str: string)
    ensures str == Field(now, reason, other)
  {
    var i := |now| + 1;
    if reason.Some? {
      i := i + |reason.value| + 1;
    }
    if other.Some? {
      i := i + |other.value| + 1;
    }
    str := StrLCat("", now, i);
    assert str == now;
    if reason.Some? {
      str := StrLCat(str, ",", i);
      str := StrLCat(str, reason.value, i);
      ConcatAssoc(now, ",", reason.value);
    }
    ghost var begun := now + if reason.Some? then "," + reason.value else "";
    assert str == begun;
    if other.Some? {
      str := StrLCat(str, ",", i);
      str := StrLCat(str, other.value, i);
      ConcatAssoc(begun, ",", other.value);
    }
  }

  /** The field is written exactly when the argument is accepted. */
  method MakeRevocationStr(revType: int, revArg: string, now: string, lib: Library) returns (str: Option<string>)
    ensures str == if Accepted(revType, revArg, lib) then
                     Some(Field(now, ReasonOf(revType, revArg), ExtraOf(revType, revArg)))
                   else None
  {
    var reason: Option<string>, other: Option<string> := None, None;
    if revType == REV_CRL_REASON {
      var found := SearchReasons(revArg, 8);
      if found.None? {
        return None;
      }
      reason := Some(CrlReason(found.value));
    } else if revType == REV_HOLD {
      if !lib.oid(revArg) {
        return None;
      }
      reason, other := Some("holdInstruction"), Some(revArg);
    } else if revType == REV_KEY_COMPROMISE || revType == REV_CA_COMPROMISE {
      if !lib.time(revArg) {
        return None;
      }
      other := Some(revArg);
      reason := Some(if revType == REV_KEY_COMPROMISE then "keyTime" else "CAkeyTime");
    }
    var field := BuildField(now, reason, other);
    str := Some(field);
  }

  // ----- Reading the field

  datatype Fields = Fields(time: string, reason: Option<string>, arg: Option<string>)

  /** Up to the first comma, and what follows it. */
  function Cut(s: string): (r: (string, Option<string>)) {
    if |s| == 0 then ("", None)
    else if s[0] == ',' then ("", Some(s[1..]))
    else
      var (head, rest) := Cut(s[1..]);
      ([s[0]] + head, rest)
  }

  function FieldsOf(s: string): Fields {
    var (time, rest) := Cut(s);
    if rest.None? then Fields(time, None, None)
    else
      var (reason, arg) := Cut(rest.value);
      Fields(time, Some(reason), arg)
  }

  datatype Failure =
    InvalidDate | InvalidReason | MissingHold | InvalidHold | MissingTime | InvalidTime

  /** What is known of a revocation; code is that of the reason, or NO_STATUS. */
  datatype Info = Info(time: string, code: int, hold: Option<string>, invtm: Option<string>) | Bad(why: Failure)

  /** The meaning of the fields, when the reason is the one at i. */
  function ReadAt(f: Fields, i: nat, lib: Library): Info {
    if i < 7 then Info(f.time, i, None, None)
    else if i == 7 then Info(f.time, Number(RemoveFromCrl), None, None)
    else if i == 8 then
      if f.arg.None? then Bad(MissingHold)
      else if !lib.oid(f.arg.value) then Bad(InvalidHold)
      else Info(f.time, Number(CertificateHold), f.arg, None)
    else
      if f.arg.None? then Bad(MissingTime)
      else if !lib.time(f.arg.value) then Bad(InvalidTime)
      else Info(f.time, if i == 9 then Number(KeyCompromise) else Number(CaCompromise), None, f.arg)
  }

  /** The meaning of the fields; the date is checked only for a caller that asks for it. */
  function Read(f: Fields, prevtm: bool, lib: Library): Info {
    if prevtm && !lib.utc(f.time) then Bad(InvalidDate)
    else if f.reason.None? then Info(f.time, NO_STATUS, None, None)
    else
      match FindReason(f.reason.value, 0, NUM_REASONS)
      case None => Bad(InvalidReason)
      case Some(i) => ReadAt(f, i, lib)
  }

  lemma {:induction false} CutAt(a: string, b: string)
    requires ',' !in a
    ensures Cut(a) == (a, None) && Cut(a + "," + b) == (a, Some(b))
  {
    if |a| > 0 {
      CutAt(a[1..], b);
      assert (a + "," + b)[1..] == a[1..] + "," + b;
      assert [a[0]] + a[1..] == a;
    } else {
      assert (a + "," + b)[1..] == b;
    }
  }

  lemma FieldsOfField(time: string, reason: Option<string>, other: Option<string>)
    requires ',' !in time && (reason.Some? ==> ',' !in reason.value) && (other.Some? ==> reason.Some?)
    ensures FieldsOf(Field(time, reason, other)) == Fields(time, reason, other)
  {
    CutAt(time, "");
    if reason.Some? {
      var rest := reason.value + if other.Some? then "," + other.value else "";
      CutAt(time, rest);
      assert Field(time, reason, other) == time + "," + rest;
      CutAt(reason.value, if other.Some? then other.value else "");
      assert other.None? ==> rest == reason.value;
      assert other.Some? ==> rest == reason.value + "," + other.value;
    } else {
      assert Field(time, reason, other) == time;
    }
  }

  /** The reason of the standard; a pseudo reason stands for the one it explains. */
  function Standard(i: nat): CrlCode
    requires i < NUM_REASONS
  {
    match i
    case 0 => Unspecified
    case 1 => KeyCompromise
    case 2 => CaCompromise
    case 3 => AffiliationChanged
    case 4 => Superseded
    case 5 => CessationOfOperation
    case 6 => CertificateHold
    case 7 => RemoveFromCrl
    case 8 => CertificateHold
    case 9 => KeyCompromise
    case _ => CaCompromise
  }

  /** What a caller of MakeRevocationStr means. */
  function Meant(revType: int, revArg: string, now: string): Info {
    if revType == REV_CRL_REASON && FindReason(revArg, 0, 8).Some? then
      Info(now, Number(Standard(FindReason(revArg, 0, 8).value)), None, None)
    else if revType == REV_HOLD then Info(now, Number(Standard(8)), Some(revArg), None)
    else if revType == REV_KEY_COMPROMISE then Info(now, Number(Standard(9)), None, Some(revArg))
    else if revType == REV_CA_COMPROMISE then Info(now, Number(Standard(10)), None, Some(revArg))
    else Info(now, NO_STATUS, None, None)
  }

  /** Every code that is read is that of the reason in the standard. */
  lemma CodeIsStandard(f: Fields, prevtm: bool, lib: Library)
    requires f.reason.Some? && Read(f, prevtm, lib).Info?
    ensures var i := FindReason(f.reason.value, 0, NUM_REASONS);
            i.Some? && Read(f, prevtm, lib).code == Number(Standard(i.value))
  {
    var i := FindReason(f.reason.value, 0, NUM_REASONS).value;
    if i < 7 {
      SameNumber(i);
    }
  }

  lemma SameNumber(i: nat)
    requires i < 7
    ensures Number(Standard(i)) == i
  {
  }

  lemma Itself(i: nat)
    requires i < NUM_REASONS
    ensures FindReason(CrlReason(i), 0, NUM_REASONS) == Some(i)
    ensures i < 8 ==> FindReason(CrlReason(i), 0, 8) == Some(i)
  {
    FoundAsItself(CrlReason(i), i, NUM_REASONS);
    if i < 8 {
      FoundAsItself(CrlReason(i), i, 8);
    }
  }

  lemma ReadReason(i: nat, now: string, prevtm: bool, lib: Library)
    requires i < 8 && !(prevtm && !lib.utc(now))
    ensures Read(Fields(now, Some(CrlReason(i)), None), prevtm, lib) == Info(now, Number(Standard(i)), None, None)
  {
    Itself(i);
  }

  /** A pseudo reason is read back with its argument. */
  lemma ReadPseudo(i: nat, arg: string, now: string, prevtm: bool, lib: Library)
    requires 8 <= i < NUM_REASONS && !(prevtm && !lib.utc(now))
    requires if i == 8 then lib.oid(arg) else lib.time(arg)
    ensures Read(Fields(now, Some(CrlReason(i)), Some(arg)), prevtm, lib) ==
            Info(now, Number(Standard(i)), if i == 8 then Some(arg) else None, if i == 8 then None else Some(arg))
  {
    Itself(i);
  }

  lemma ReasonAsMeant(revArg: string, now: string, prevtm: bool, lib: Library)
    requires Accepted(REV_CRL_REASON, revArg, lib) && !(prevtm && !lib.utc(now))
    ensures Read(Fields(now, ReasonOf(REV_CRL_REASON, revArg), ExtraOf(REV_CRL_REASON, revArg)), prevtm, lib) ==
            Meant(REV_CRL_REASON, revArg, now)
  {
    ReadReason(FindReason(revArg, 0, 8).value, now, prevtm, lib);
  }

  lemma ReadAsMeant(revType: int, revArg: string, now: string, prevtm: bool, lib: Library)
    requires Accepted(revType, revArg, lib)
    ensures Read(Fields(now, ReasonOf(revType, revArg), ExtraOf(revType, revArg)), prevtm, lib) ==
            if prevtm && !lib.utc(now) then Bad(InvalidDate) else Meant(revType, revArg, now)
  {
    if prevtm && !lib.utc(now) {
    } else if revType == REV_CRL_REASON {
      ReasonAsMeant(revArg, now, prevtm, lib);
    } else if revType == REV_HOLD {
      ReadPseudo(8, revArg, now, prevtm, lib);
    } else if revType == REV_KEY_COMPROMISE {
      ReadPseudo(9, revArg, now, prevtm, lib);
    } else if revType == REV_CA_COMPROMISE {
      ReadPseudo(10, revArg, now, prevtm, lib);
    }
  }

  /**
   What was written is read back: the time, the argument and the standard's code of the
   reason, or that there is none. It fails exactly where the time itself is refused.
   */
  lemma RoundTrip(revType: int, revArg: string, now: string, prevtm: bool, lib: Library)
    requires Accepted(revType, revArg, lib) && ',' !in now
    ensures var field := Field(now, ReasonOf(revType, revArg), ExtraOf(revType, revArg));
            Read(FieldsOf(field), prevtm, lib) ==
            if prevtm && !lib.utc(now) then Bad(InvalidDate) else Meant(revType, revArg, now)
  {
    FieldsOfField(now, ReasonOf(revType, revArg), ExtraOf(revType, revArg));
    ReadAsMeant(revType, revArg, now, prevtm, lib);
  }

  /** Conversely, whatever field is accepted says something that can be written. */
  lemma OnlyWhatCanBeWritten(field: string, prevtm: bool, lib: Library)
    requires Read(FieldsOf(field), prevtm, lib).Info?
    ensures exists revType, revArg ::
              && Accepted(revType, revArg, lib)
              && Read(FieldsOf(field), prevtm, lib) == Meant(revType, revArg, FieldsOf(field).time)
  {
    var f := FieldsOf(field);
    if f.reason.None? {
      assert Accepted(REV_NONE, "", lib);
    } else {
      var i := FindReason(f.reason.value, 0, NUM_REASONS).value;
      CodeIsStandard(f, prevtm, lib);
      if i < 8 {
        Itself(i);
        assert Accepted(REV_CRL_REASON, CrlReason(i), lib);
      } else if i == 8 {
        assert Accepted(REV_HOLD, f.arg.value, lib);
      } else {
        assert Accepted(if i == 9 then REV_KEY_COMPROMISE else REV_CA_COMPROMISE, f.arg.value, lib);
      }
    }
  }

  // ----- The names and numbers of the standard

  /** The text is the name, each letter in either case. */
  predicate AnyCase(s: string, name: string) {
    |s| == |name| &&
    forall k | 0 <= k < |s| ::
      || s[k] == name[k]
      || ('a' <= name[k] <= 'z' && s[k] as int == name[k] as int - 32)
      || ('A' <= name[k] <= 'Z' && s[k] as int == name[k] as int + 32)
  }

  /** What is read of a field, when the date is not asked for. */
  predicate ReadsAs(field: string, time: string, code: int, hold: Option<string>, invtm: Option<string>, lib: Library) {
    Read(FieldsOf(field), false, lib) == Info(time, code, hold, invtm)
  }

  lemma NoComma(s: string, name: string)
    requires AnyCase(s, name) && ',' !in name
    ensures ',' !in s
  {
    forall k | 0 <= k < |s|
      ensures s[k] != ','
    {
    }
  }

  lemma FieldText(time: string, s: string, arg: string)
    ensures Field(time, Some(s), Some(arg)) == time + "," + s + "," + arg
  {
    ConcatAssoc(time, ",", s);
    ConcatAssoc(time + "," + s, ",", arg);
  }

  /** A reason, in any case, is found at its index, and a field with it is cut up as it was put together. */
  lemma ReasonRead(time: string, s: string, arg: Option<string>, i: nat)
    requires i < NUM_REASONS && AnyCase(s, CrlReason(i)) && ',' !in time
    ensures FindReason(s, 0, NUM_REASONS) == Some(i) && (i < 8 ==> FindReason(s, 0, 8) == Some(i))
    ensures FieldsOf(Field(time, Some(s), arg)) == Fields(time, Some(s), arg)
  {
    FoundAsItself(s, i, NUM_REASONS);
    if i < 8 {
      FoundAsItself(s, i, 8);
    }
    NoComma(s, CrlReason(i));
    FieldsOfField(time, Some(s), arg);
  }

  /** The numbers of the reasons, and what a pseudo reason needs. */
  lemma ReadAtMeans(f: Fields, i: nat, lib: Library)
    ensures i < 8 ==> ReadAt(f, i, lib) == Info(f.time, if i == 7 then 8 else i, None, None)
    ensures i == 8 && f.arg.Some? && lib.oid(f.arg.value) ==> ReadAt(f, i, lib) == Info(f.time, 6, f.arg, None)
    ensures i > 8 && f.arg.Some? && lib.time(f.arg.value) ==>
              ReadAt(f, i, lib) == Info(f.time, if i == 9 then 1 else 2, None, f.arg)
  {
  }

  lemma FieldReason(now: string, reason: string)
    ensures Field(now, Some(reason), None) == now + "," + reason
  {
  }

  lemma PlainReason(time: string, s: string, i: nat, lib: Library)
    requires i < 8 && AnyCase(s, CrlReason(i)) && ',' !in time
    ensures ReadsAs(time + "," + s, time, if i == 7 then 8 else i, None, None, lib)
  {
    ReasonRead(time, s, None, i);
    FieldReason(time, s);
    ReadAtMeans(Fields(time, Some(s), None), i, lib);
  }

  /** The names of section 5.3.1 of RFC 5280, as they are written here, are read as their numbers. */
  lemma NamedReasons(time: string, s: string, lib: Library)
    requires ',' !in time
    ensures AnyCase(s, "unspecified") ==> ReadsAs(time + "," + s, time, 0, None, None, lib)
    ensures AnyCase(s, "keyCompromise") ==> ReadsAs(time + "," + s, time, 1, None, None, lib)
    ensures AnyCase(s, "CACompromise") ==> ReadsAs(time + "," + s, time, 2, None, None, lib)
    ensures AnyCase(s, "affiliationChanged") ==> ReadsAs(time + "," + s, time, 3, None, None, lib)
    ensures AnyCase(s, "superseded") ==> ReadsAs(time + "," + s, time, 4, None, None, lib)
    ensures AnyCase(s, "cessationOfOperation") ==> ReadsAs(time + "," + s, time, 5, None, None, lib)
    ensures AnyCase(s, "certificateHold") ==> ReadsAs(time + "," + s, time, 6, None, None, lib)
    ensures AnyCase(s, "removeFromCRL") ==> ReadsAs(time + "," + s, time, 8, None, None, lib)
  {
    forall i | 0 <= i < 8 && AnyCase(s, CrlReason(i))
      ensures ReadsAs(time + "," + s, time, if i == 7 then 8 else i, None, None, lib)
    {
      PlainReason(time, s, i, lib);
    }
    assert CrlReason(0) == "unspecified" && CrlReason(1) == "keyCompromise" && CrlReason(2) == "CACompromise";
    assert CrlReason(3) == "affiliationChanged" && CrlReason(4) == "superseded";
    assert CrlReason(5) == "cessationOfOperation" && CrlReason(6) == "certificateHold" && CrlReason(7) == "removeFromCRL";
  }

  lemma ReadHold(time: string, s: string, arg: string, lib: Library)
    requires ',' !in time && AnyCase(s, "holdInstruction")
    ensures lib.oid(arg) ==> ReadsAs(time + "," + s + "," + arg, time, 6, Some(arg), None, lib)
  {
    assert CrlReason(8) == "holdInstruction";
    ReasonRead(time, s, Some(arg), 8);
    FieldText(time, s, arg);
    ReadAtMeans(Fields(time, Some(s), Some(arg)), 8, lib);
  }

  lemma ReadTime(time: string, s: string, arg: string, i: nat, lib: Library)
    requires ',' !in time && (i == 9 || i == 10) && AnyCase(s, CrlReason(i))
    ensures lib.time(arg) ==> ReadsAs(time + "," + s + "," + arg, time, i - 8, None, Some(arg), lib)
  {
    ReasonRead(time, s, Some(arg), i);
    FieldText(time, s, arg);
    ReadAtMeans(Fields(time, Some(s), Some(arg)), i, lib);
  }

  /** The pseudo reasons are read as the numbers of what they explain, with their argument. */
  lemma NamedPseudoReasons(time: string, s: string, arg: string, lib: Library)
    requires ',' !in time
    ensures AnyCase(s, "holdInstruction") && lib.oid(arg) ==>
              ReadsAs(time + "," + s + "," + arg, time, 6, Some(arg), None, lib)
    ensures AnyCase(s, "keyTime") && lib.time(arg) ==>
              ReadsAs(time + "," + s + "," + arg, time, 1, None, Some(arg), lib)
    ensures AnyCase(s, "CAkeyTime") && lib.time(arg) ==>
              ReadsAs(time + "," + s + "," + arg, time, 2, None, Some(arg), lib)
  {
    assert CrlReason(9) == "keyTime" && CrlReason(10) == "CAkeyTime";
    if AnyCase(s, "holdInstruction") {
      ReadHold(time, s, arg, lib);
    }
    if AnyCase(s, CrlReason(9)) {
      ReadTime(time, s, arg, 9, lib);
    }
    if AnyCase(s, CrlReason(10)) {
      ReadTime(time, s, arg, 10, lib);
    }
  }

  lemma WrittenReason(now: string, s: string, i: nat, lib: Library)
    requires i < 8 && AnyCase(s, CrlReason(i))
    ensures Accepted(1, s, lib) && Field(now, ReasonOf(1, s), ExtraOf(1, s)) == now + "," + CrlReason(i)
  {
    FoundAsItself(s, i, 8);
    assert ReasonOf(1, s) == Some(CrlReason(i)) && ExtraOf(1, s) == None;
    FieldReason(now, CrlReason(i));
  }

  /** What -crl_reason writes for an argument it takes. */
  predicate Writes(now: string, s: string, reason: string, lib: Library) {
    Accepted(1, s, lib) && Field(now, ReasonOf(1, s), ExtraOf(1, s)) == now + "," + reason
  }

  /** It writes the name in its own case. */
  lemma ReasonsWritten(now: string, s: string, lib: Library)
    ensures AnyCase(s, "unspecified") ==> Writes(now, s, "unspecified", lib)
    ensures AnyCase(s, "keyCompromise") ==> Writes(now, s, "keyCompromise", lib)
    ensures AnyCase(s, "CACompromise") ==> Writes(now, s, "CACompromise", lib)
    ensures AnyCase(s, "affiliationChanged") ==> Writes(now, s, "affiliationChanged", lib)
    ensures AnyCase(s, "superseded") ==> Writes(now, s, "superseded", lib)
    ensures AnyCase(s, "cessationOfOperation") ==> Writes(now, s, "cessationOfOperation", lib)
    ensures AnyCase(s, "certificateHold") ==> Writes(now, s, "certificateHold", lib)
    ensures AnyCase(s, "removeFromCRL") ==> Writes(now, s, "removeFromCRL", lib)
  {
    forall i | 0 <= i < 8 && AnyCase(s, CrlReason(i))
      ensures Writes(now, s, CrlReason(i), lib)
    {
      WrittenReason(now, s, i, lib);
    }
    assert CrlReason(0) == "unspecified" && CrlReason(1) == "keyCompromise" && CrlReason(2) == "CACompromise";
    assert CrlReason(3) == "affiliationChanged" && CrlReason(4) == "superseded";
    assert CrlReason(5) == "cessationOfOperation" && CrlReason(6) == "certificateHold" && CrlReason(7) == "removeFromCRL";
  }

  /** No other name is taken. */
  lemma OtherNamesRefused(s: string, lib: Library)
    requires Accepted(1, s, lib)
    ensures || AnyCase(s, "unspecified") || AnyCase(s, "keyCompromise") || AnyCase(s, "CACompromise")
            || AnyCase(s, "affiliationChanged") || AnyCase(s, "superseded") || AnyCase(s, "cessationOfOperation")
            || AnyCase(s, "certificateHold") || AnyCase(s, "removeFromCRL")
  {
    var i := FindReason(s, 0, 8).value;
    SameIsAnyCase(s, CrlReason(i));
  }

  /** Nor is any other read, pseudo reasons apart. */
  lemma OtherNamesUnread(f: Fields, prevtm: bool, lib: Library)
    requires f.reason.Some? && Read(f, prevtm, lib).Info?
    ensures var s := f.reason.value;
            || AnyCase(s, "unspecified") || AnyCase(s, "keyCompromise") || AnyCase(s, "CACompromise")
            || AnyCase(s, "affiliationChanged") || AnyCase(s, "superseded") || AnyCase(s, "cessationOfOperation")
            || AnyCase(s, "certificateHold") || AnyCase(s, "removeFromCRL")
            || AnyCase(s, "holdInstruction") || AnyCase(s, "keyTime") || AnyCase(s, "CAkeyTime")
  {
    var i := FindReason(f.reason.value, 0, NUM_REASONS).value;
    SameIsAnyCase(f.reason.value, CrlReason(i));
  }

  lemma SameIsAnyCase(s: string, name: string)
    requires SameIgnoringCase(s, name)
    ensures AnyCase(s, name)
  {
    forall k | 0 <= k < |s|
      ensures s[k] == name[k] || ('a' <= name[k] <= 'z' && s[k] as int == name[k] as int - 32)
              || ('A' <= name[k] <= 'Z' && s[k] as int == name[k] as int + 32)
    {
      assert Lower(s[k]) == Lower(name[k]);
    }
  }

  /** The other options write their own reason with the argument, and take what the library takes. */
  lemma OptionsWritten(now: string, arg: string, lib: Library)
    ensures Accepted(0, arg, lib) && Field(now, ReasonOf(0, arg), ExtraOf(0, arg)) == now
    ensures Accepted(2, arg, lib) == lib.oid(arg)
    ensures Field(now, ReasonOf(2, arg), ExtraOf(2, arg)) == now + ",holdInstruction," + arg
    ensures Accepted(3, arg, lib) == Accepted(4, arg, lib) == lib.time(arg)
    ensures Field(now, ReasonOf(3, arg), ExtraOf(3, arg)) == now + ",keyTime," + arg
    ensures Field(now, ReasonOf(4, arg), ExtraOf(4, arg)) == now + ",CAkeyTime," + arg
  {
  }

  // ----- Reading it in place

  /** strchr for a comma, from an index on; a negative number if there is none before the terminator. */
  method FindComma(tmp: array<char>, start: nat, ghost text: string) returns (p: int)
    requires TextAt(tmp[..], start, text)
    ensures p < 0 ==> ',' !in text
    ensures p >= 0 ==> start <= p < start + |text| && text[p - start] == ',' && ',' !in text[..p - start]
  {
    p := start;
    assert |text| > 0 ==> tmp[..][start + 0] == text[0];
    while tmp[p] != '\0'
      invariant start <= p <= start + |text|
      invariant p < start + |text| ==> tmp[p] == text[p - start] != '\0'
      invariant ',' !in text[..p - start]
      decreases start + |text| - p
    {
      if tmp[p] == ',' {
        return;
      }
      p := p + 1;
      assert p < start + |text| ==> tmp[..][start + (p - start)] == text[p - start];
    }
    assert text[..p - start] == text;
    p := -1;
  }

  /** A comma overwritten with a terminator: the string ends there, and the rest follows. */
  lemma CutInPlace(b: seq<char>, start: nat, text: string, p: nat)
    requires TextAt(b, start, text) && start <= p < start + |text|
    requires text[p - start] == ',' && ',' !in text[..p - start]
    ensures var c := b[p := '\0'];
            && TextAt(c, start, text[..p - start]) && TextAt(c, p + 1, text[p - start + 1..])
            && Cut(text) == (text[..p - start], Some(text[p - start + 1..]))
  {
    CutText(text, p - start);
    HeadAt(b, start, text, p - start);
    RestAt(b, start, text, p - start);
  }

  lemma CutText(text: string, i: nat)
    requires i < |text| && text[i] == ',' && ',' !in text[..i]
    ensures Cut(text) == (text[..i], Some(text[i + 1..]))
  {
    assert text == text[..i] + "," + text[i + 1..];
    CutAt(text[..i], text[i + 1..]);
  }

  lemma HeadAt(b: seq<char>, start: nat, text: string, i: nat)
    requires TextAt(b, start, text) && i < |text|
    ensures TextAt(b[start + i := '\0'], start, text[..i])
  {
  }

  lemma RestAt(b: seq<char>, start: nat, text: string, i: nat)
    requires TextAt(b, start, text) && i < |text|
    ensures TextAt(b[start + i := '\0'], start + i + 1, text[i + 1..])
  {
    var c, rest := b[start + i := '\0'], text[i + 1..];
    forall k | 0 <= k < |rest|
      ensures c[start + i + 1 + k] == rest[k] != '\0'
    {
      assert b[start + (i + 1 + k)] == text[i + 1 + k];
    }
  }

  lemma TextBefore(b: seq<char>, c: seq<char>, at: nat, text: string)
    requires TextAt(b, at, text) && |c| == |b| && c[..at + |text| + 1] == b[..at + |text| + 1]
    ensures TextAt(c, at, text)
  {
    assert c[at + |text|] == c[..at + |text| + 1][at + |text|];
    forall k | 0 <= k < |text|
      ensures c[at + k] == text[k] != '\0'
    {
      assert c[..at + |text| + 1][at + k] == b[..at + |text| + 1][at + k];
    }
  }

  /** What follows the first comma is cut at the next one; nothing before it changes. */
  method CutRest(tmp: array<char>, reasonAt: nat, ghost rest: string) returns (argAt: nat)
    requires TextAt(tmp[..], reasonAt, rest)
    modifies tmp
    ensures argAt < tmp.Length && (argAt > 0 <==> Cut(rest).1.Some?)
    ensures TextAt(tmp[..], reasonAt, Cut(rest).0)
    ensures Cut(rest).1.Some? ==> TextAt(tmp[..], argAt, Cut(rest).1.value)
    ensures tmp[..reasonAt] == old(tmp[..reasonAt])
  {
    var p := FindComma(tmp, reasonAt, rest);
    if p < 0 {
      CutAt(rest, "");
      return 0;
    }
    CutInPlace(tmp[..], reasonAt, rest, p);
    ghost var whole := tmp[..];
    tmp[p] := '\0';
    assert tmp[..] == whole[p := '\0'];
    argAt := p + 1;
  }

  /** The copy is cut at its first two commas; what follows them starts there. */
  method CutFields(tmp: array<char>, str: string) returns (reasonAt: nat, argAt: nat)
    requires TextAt(tmp[..], 0, str)
    modifies tmp
    ensures reasonAt < tmp.Length && argAt < tmp.Length
    ensures var f := FieldsOf(str);
            && TextAt(tmp[..], 0, f.time)
            && f.reason.Some? == (reasonAt > 0) && f.arg.Some? == (argAt > 0)
            && (f.reason.Some? ==> TextAt(tmp[..], reasonAt, f.reason.value))
            && (f.arg.Some? ==> TextAt(tmp[..], argAt, f.arg.value))
  {
    reasonAt, argAt := 0, 0;
    var p := FindComma(tmp, 0, str);
    if p < 0 {
      CutAt(str, "");
      return;
    }
    CutInPlace(tmp[..], 0, str, p);
    ghost var time, rest, whole := str[..p], str[p + 1..], tmp[..];
    tmp[p] := '\0';
    assert tmp[..] == whole[p := '\0'];
    ghost var once := tmp[..];
    reasonAt := p + 1;
    argAt := CutRest(tmp, reasonAt, rest);
    assert once[..reasonAt] == tmp[..][..reasonAt];
    TextBefore(once, tmp[..], 0, time);
  }

  /** unpack_revinfo: the field is copied, cut at its commas, and its parts are looked up. */
  method UnpackRevinfo(str: string, prevtm: bool, lib: Library) returns (r: Info)
    requires '\0' !in str
    ensures r == Read(FieldsOf(str), prevtm, lib)
  {
    var tmp := new char[|str| + 1](i requires 0 <= i <= |str| => if i < |str| then str[i] else '\0');
    assert TextAt(tmp[..], 0, str);
    var reasonAt, argAt := CutFields(tmp, str);
    ghost var f := FieldsOf(str);
    TextIsCString(tmp[..], 0, f.time);
    var time := CString(tmp[..], 0);
    if prevtm && !lib.utc(time) {
      return Bad(InvalidDate);
    }
    if reasonAt == 0 {
      return Info(time, NO_STATUS, None, None);
    }
    TextIsCString(tmp[..], reasonAt, f.reason.value);
    var found := SearchReasons(CString(tmp[..], reasonAt), NUM_REASONS);
    if found.None? {
      return Bad(InvalidReason);
    }
    var arg := CString(tmp[..], argAt);
    if argAt > 0 {
      TextIsCString(tmp[..], argAt, f.arg.value);
    }
    var code := found.value;
    if code == 7 {
      return Info(time, Number(RemoveFromCrl), None, None);
    } else if code == 8 {
      if argAt == 0 {
        return Bad(MissingHold);
      }
      if !lib.oid(arg) {
        return Bad(InvalidHold);
      }
      return Info(time, Number(CertificateHold), Some(arg), None);
    } else if code == 9 || code == 10 {
      if argAt == 0 {
        return Bad(MissingTime);
      }
      if !lib.time(arg) {
        return Bad(InvalidTime);
      }
      return Info(time, if code == 9 then Number(KeyCompromise) else Number(CaCompromise), None, Some(arg));
    }
    r := Info(time, code, None, None);
  }
}