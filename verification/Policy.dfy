/**
 The policy section of the certificate authority (do_body in ca.c): the subject of the
 certificate is picked, attribute by attribute, from the name in the request, under the
 rules of the policy and against the name of the CA. A name is a sequence of entries.
 */
module Policy {
  import opened Wrappers

  /** An ASN.1 string: its type is part of what is compared. */
  datatype Text = Text(kind: int, data: seq<nat>)

  datatype Entry = Entry(nid: nat, text: Text)

  /** A line of the policy section; OBJ_txt2nid knows the name of the attribute, or not. */
  datatype Line = Line(name: string, nid: Option<nat>, value: string)

  datatype Failure =
    | UnknownObject(name: string)
    | InvalidType(value: string)
    | NotSupplied(name: string)
    | MandatoryMissing(name: string)
    | NotInCa(name: string)
    | Differs(name: string)

  datatype Result = Subject(entries: seq<Entry>) | Refused(why: Failure)

  // ----- What the policy means

  /** The entries of one attribute, in their order. */
  function Select(name: seq<Entry>, nid: nat): (r: seq<Entry>) {
    if |name| == 0 then []
    else
      var rest := Select(name[..|name| - 1], nid);
      var last := name[|name| - 1];
      if last.nid == nid then rest + [last] else rest
  }

  /** For each line of the policy, the entries of its attribute. */
  function SubjectOf(policy: seq<Line>, name: seq<Entry>): (r: seq<Entry>) {
    if |policy| == 0 then []
    else
      var line := policy[|policy| - 1];
      SubjectOf(policy[..|policy| - 1], name) + (if line.nid.Some? then Select(name, line.nid.value) else [])
  }

  predicate Has(name: seq<Entry>, nid: nat) {
    exists k | 0 <= k < |name| :: name[k].nid == nid
  }

  /** Every entry of the attribute is also an entry of the CA. */
  predicate AllInCa(name: seq<Entry>, nid: nat, ca: seq<Entry>) {
    forall k | 0 <= k < |name| && name[k].nid == nid :: name[k] in ca
  }

  /** Why a line refuses the request, if it does. */
  function Objection(line: Line, name: seq<Entry>, ca: seq<Entry>): Option<Failure> {
    if line.nid.None? then Some(UnknownObject(line.name))
    else if line.value == "optional" then None
    else if line.value == "supplied" then
      if Has(name, line.nid.value) then None else Some(NotSupplied(line.name))
    else if line.value == "match" then
      if !Has(name, line.nid.value) then Some(MandatoryMissing(line.name))
      else if !Has(ca, line.nid.value) then Some(NotInCa(line.name))
      else if !AllInCa(name, line.nid.value, ca) then Some(Differs(line.name))
      else None
    else Some(InvalidType(line.value))
  }

  /** When a line refuses a request, and with which failure. */
  lemma ObjectionExactly(line: Line, name: seq<Entry>, ca: seq<Entry>)
    ensures var objection := Objection(line, name, ca);
            var there := line.nid.Some? && exists k | 0 <= k < |name| :: name[k].nid == line.nid.value;
            var known := line.nid.Some? && exists k | 0 <= k < |ca| :: ca[k].nid == line.nid.value;
            var odd := line.nid.Some? && exists k | 0 <= k < |name| ::
                         name[k].nid == line.nid.value && forall j | 0 <= j < |ca| :: ca[j] != name[k];
            && (objection == None <==>
                  && line.nid.Some?
                  && (line.value == "optional" || (line.value == "supplied" && there)
                      || (line.value == "match" && there && !odd)))
            && (objection == Some(UnknownObject(line.name)) <==> line.nid.None?)
            && (objection == Some(NotSupplied(line.name)) <==> line.nid.Some? && line.value == "supplied" && !there)
            && (objection == Some(MandatoryMissing(line.name)) <==> line.nid.Some? && line.value == "match" && !there)
            && (objection == Some(NotInCa(line.name)) <==> line.value == "match" && there && !known)
            && (objection == Some(Differs(line.name)) <==> line.value == "match" && there && known && odd)
            && (objection == Some(InvalidType(line.value)) <==>
                  line.nid.Some? && line.value !in ["optional", "supplied", "match"])
  {
    if line.nid.Some? && !AllInCa(name, line.nid.value, ca) {
      var k :| 0 <= k < |name| && name[k].nid == line.nid.value && name[k] !in ca;
      assert forall j | 0 <= j < |ca| :: ca[j] != name[k];
    }
    if line.nid.Some? && Has(name, line.nid.value) && AllInCa(name, line.nid.value, ca) {
      var k :| 0 <= k < |name| && name[k].nid == line.nid.value;
      var j :| 0 <= j < |ca| && ca[j] == name[k];
    }
  }

  /** The outcome the policy asks for: the first objection, or the entries of all its attributes. */
  ghost predicate Decides(policy: seq<Line>, name: seq<Entry>, ca: seq<Entry>, r: Result) {
    match r
    case Subject(entries) =>
      && (forall i | 0 <= i < |policy| :: Objection(policy[i], name, ca).None?)
      && entries == SubjectOf(policy, name)
    case Refused(why) =>
      exists i | 0 <= i < |policy| ::
        && Objection(policy[i], name, ca) == Some(why)
        && forall k | 0 <= k < i :: Objection(policy[k], name, ca).None?
  }

  /** The attribute is known, and there where it must be; what must match is an entry of the CA. */
  ghost predicate Allows(line: Line, name: seq<Entry>, ca: seq<Entry>) {
    && line.nid.Some? && line.value in ["optional", "supplied", "match"]
    && (line.value != "optional" ==> exists k | 0 <= k < |name| :: name[k].nid == line.nid.value)
    && (line.value == "match" ==>
          forall k | 0 <= k < |name| && name[k].nid == line.nid.value :: exists j | 0 <= j < |ca| :: ca[j] == name[k])
  }

  lemma AllowsExactly(line: Line, name: seq<Entry>, ca: seq<Entry>)
    ensures Allows(line, name, ca) <==> Objection(line, name, ca).None?
  {
    assert line.value in ["optional", "supplied", "match"] <==>
           line.value == "optional" || line.value == "supplied" || line.value == "match";
    if line.nid.Some? && line.value == "match" && Has(name, line.nid.value) && AllInCa(name, line.nid.value, ca) {
      var k :| 0 <= k < |name| && name[k].nid == line.nid.value;
      var j :| 0 <= j < |ca| && ca[j] == name[k];
    }
  }

  /** The policy leaves one outcome. */
  lemma OneOutcome(policy: seq<Line>, name: seq<Entry>, ca: seq<Entry>, r: Result, s: Result)
    requires Decides(policy, name, ca, r) && Decides(policy, name, ca, s)
    ensures r == s
  {
    if r.Refused? && s.Refused? {
      var i :| 0 <= i < |policy| && Objection(policy[i], name, ca) == Some(r.why)
               && forall k | 0 <= k < i :: Objection(policy[k], name, ca).None?;
      var j :| 0 <= j < |policy| && Objection(policy[j], name, ca) == Some(s.why)
               && forall k | 0 <= k < j :: Objection(policy[k], name, ca).None?;
      assert i == j;
    }
  }

  /** The subject goes through the lines of the policy in their order. */
  lemma {:induction false} SubjectOfConcat(a: seq<Line>, b: seq<Line>, name: seq<Entry>)
    ensures SubjectOf(a + b, name) == SubjectOf(a, name) + SubjectOf(b, name)
    decreases |b|
  {
    if |b| == 0 {
      assert a + b == a;
    } else {
      SubjectOfConcat(a, b[..|b| - 1], name);
      assert (a + b)[..|a + b| - 1] == a + b[..|b| - 1];
    }
  }

  /** at lists the places of an attribute in a name, from first to last. */
  ghost predicate PlacesOf(name: seq<Entry>, nid: nat, at: seq<nat>) {
    && (forall i, j | 0 <= i < j < |at| :: at[i] < at[j])
    && (forall i | 0 <= i < |at| :: at[i] < |name| && name[at[i]].nid == nid)
    && (forall k | 0 <= k < |name| && name[k].nid == nid :: k in at)
  }

  /** For one line the subject has the entries of the attribute, in the order of the request. */
  lemma {:induction false} SelectInOrder(name: seq<Entry>, nid: nat) returns (at: seq<nat>)
    ensures PlacesOf(name, nid, at) && |at| == |Select(name, nid)|
    ensures forall i | 0 <= i < |at| :: Select(name, nid)[i] == name[at[i]]
  {
    at := [];
    if |name| > 0 {
      var n := |name| - 1;
      at := SelectInOrder(name[..n], nid);
      assert forall k | 0 <= k < n && name[k].nid == nid :: name[..n][k].nid == nid && k in at;
      if name[n].nid == nid {
        at := at + [n];
      }
    }
  }

  // ----- Nothing is lost, added or altered

  function Count(name: seq<Entry>, e: Entry): nat {
    if |name| == 0 then 0
    else Count(name[..|name| - 1], e) + if name[|name| - 1] == e then 1 else 0
  }

  /** How many lines of the policy name the attribute. */
  function Lines(policy: seq<Line>, nid: nat): nat {
    if |policy| == 0 then 0
    else Lines(policy[..|policy| - 1], nid) + if policy[|policy| - 1].nid == Some(nid) then 1 else 0
  }

  lemma {:induction false} CountConcat(a: seq<Entry>, b: seq<Entry>, e: Entry)
    ensures Count(a + b, e) == Count(a, e) + Count(b, e)
  {
    if |b| == 0 {
      assert a + b == a;
    } else {
      CountConcat(a, b[..|b| - 1], e);
      assert (a + b)[..|a + b| - 1] == a + b[..|b| - 1];
    }
  }

  lemma {:induction false} CountSelected(name: seq<Entry>, nid: nat, e: Entry)
    ensures Count(Select(name, nid), e) == if e.nid == nid then Count(name, e) else 0
  {
    if |name| > 0 {
      var init, last := name[..|name| - 1], name[|name| - 1];
      CountSelected(init, nid, e);
      if last.nid == nid {
        CountConcat(Select(init, nid), [last], e);
        assert [last][..0] == [];
      }
    }
  }

  /**
   Every entry of the request is in the subject once for each time it is in the request and
   each line of the policy with its attribute; entries of other attributes are dropped.
   */
  lemma {:induction false} SubjectConserves(policy: seq<Line>, name: seq<Entry>, e: Entry)
    ensures Count(SubjectOf(policy, name), e) == Lines(policy, e.nid) * Count(name, e)
  {
    if |policy| > 0 {
      var init, line := policy[..|policy| - 1], policy[|policy| - 1];
      SubjectConserves(init, name, e);
      var part := if line.nid.Some? then Select(name, line.nid.value) else [];
      CountConcat(SubjectOf(init, name), part, e);
      if line.nid.Some? {
        CountSelected(name, line.nid.value, e);
      }
      var n, c := Lines(init, e.nid), Count(name, e);
      assert (n + 1) * c == n * c + c;
    }
  }

  lemma {:induction false} SelectedConcat(a: seq<Entry>, b: seq<Entry>, nid: nat)
    ensures Select(a + b, nid) == Select(a, nid) + Select(b, nid)
  {
    if |b| == 0 {
      assert a + b == a;
    } else {
      SelectedConcat(a, b[..|b| - 1], nid);
      assert (a + b)[..|a + b| - 1] == a + b[..|b| - 1];
    }
  }

  lemma {:induction false} SelectedTwice(name: seq<Entry>, nid: nat, other: nat)
    ensures Select(Select(name, other), nid) == if nid == other then Select(name, nid) else []
  {
    if |name| > 0 {
      var init, last := name[..|name| - 1], name[|name| - 1];
      SelectedTwice(init, nid, other);
      SelectedConcat(Select(init, other), [last], nid);
      assert [last][..0] == [];
    }
  }

  /** Seen attribute by attribute, the subject is the request, for attributes the policy names once. */
  lemma {:induction false} SubjectKeepsOrder(policy: seq<Line>, name: seq<Entry>, nid: nat)
    ensures Lines(policy, nid) == 0 ==> Select(SubjectOf(policy, name), nid) == []
    ensures Lines(policy, nid) == 1 ==> Select(SubjectOf(policy, name), nid) == Select(name, nid)
  {
    if |policy| > 0 {
      var init, line := policy[..|policy| - 1], policy[|policy| - 1];
      SubjectKeepsOrder(init, name, nid);
      var part := if line.nid.Some? then Select(name, line.nid.value) else [];
      SelectedConcat(SubjectOf(init, name), part, nid);
      if line.nid.Some? {
        SelectedTwice(name, nid, line.nid.value);
      }
    }
  }

  // ----- The loops

  /** X509_NAME_get_index_by_OBJ: the next entry of the attribute after last, or a negative number. */
  method GetIndexByObj(name: seq<Entry>, nid: nat, last: int) returns (j: int)
    requires -1 <= last < |name|
    ensures j < 0 ==> forall k | last < k < |name| :: name[k].nid != nid
    ensures j >= 0 ==> last < j < |name| && name[j].nid == nid && forall k | last < k < j :: name[k].nid != nid
  {
    j := last + 1;
    while j < |name|
      invariant last < j <= |name|
      invariant forall k | last < k < j :: name[k].nid != nid
    {
      if name[j].nid == nid {
        return;
      }
      j := j + 1;
    }
    j := -1;
  }

  lemma {:induction false} SelectSkips(name: seq<Entry>, nid: nat, lo: nat, hi: nat)
    requires lo <= hi <= |name|
    requires forall k | lo <= k < hi :: name[k].nid != nid
    ensures Select(name[..hi], nid) == Select(name[..lo], nid)
    decreases hi
  {
    if lo < hi {
      assert name[..hi][..hi - 1] == name[..hi - 1];
      SelectSkips(name, nid, lo, hi - 1);
    }
  }

  lemma SelectTakes(name: seq<Entry>, nid: nat, last: int, j: nat)
    requires -1 <= last < j < |name| && name[j].nid == nid
    requires forall k | last < k < j :: name[k].nid != nid
    ensures Select(name[..j + 1], nid) == Select(name[..last + 1], nid) + [name[j]]
  {
    SelectSkips(name, nid, last + 1, j);
    assert name[..j + 1][..j] == name[..j];
  }

  /** The search at again2: an entry of the CA with the value of the request's entry. */
  method FindInCa(line: Line, tne: Entry, ca: seq<Entry>) returns (push: Option<Entry>, why: Failure)
    requires line.nid == Some(tne.nid)
    ensures push == if tne in ca then Some(tne) else None
    ensures push.None? ==> why == if Has(ca, tne.nid) then Differs(line.name) else NotInCa(line.name)
  {
    push, why := None, Differs(line.name);
    var last2 := -1;
    while true
      invariant -1 <= last2 < |ca|
      invariant forall k | 0 <= k <= last2 :: ca[k] != tne
      invariant last2 >= 0 ==> ca[last2].nid == tne.nid
      decreases |ca| - last2
    {
      var j := GetIndexByObj(ca, tne.nid, last2);
      if j < 0 && last2 == -1 {
        why := NotInCa(line.name);
        return;
      }
      if j < 0 {
        return;
      }
      last2 := j;
      if ca[j].text == tne.text {
        push := Some(ca[j]);
        return;
      }
    }
  }

  /** What the loop over one line leaves: the subject, or the failure reported. */
  method PickEntries(line: Line, name: seq<Entry>, ca: seq<Entry>, before: seq<Entry>) returns (r: Result)
    requires line.nid.Some?
    ensures match Objection(line, name, ca)
            case None => r == Subject(before + Select(name, line.nid.value))
            case Some(why) => r == Refused(why)
  {
    var nid := line.nid.value;
    var subject := before;
    var last := -1;
    while true
      invariant -1 <= last < |name|
      invariant subject == before + Select(name[..last + 1], nid)
      invariant last >= 0 ==> name[last].nid == nid
      invariant last >= 0 ==> line.value == "optional" || line.value == "supplied" || line.value == "match"
      invariant forall k | 0 <= k <= last && name[k].nid == nid :: line.value == "match" ==> name[k] in ca
      decreases |name| - last
    {
      var j := GetIndexByObj(name, nid, last);
      if j < 0 && last != -1 {
        break;
      }
      var push: Option<Entry> := None;
      if line.value == "optional" {
        if j >= 0 {
          push := Some(name[j]);
        }
      } else if line.value == "supplied" {
        if j < 0 {
          return Refused(NotSupplied(line.name));
        }
        push := Some(name[j]);
      } else if line.value == "match" {
        if j < 0 {
          return Refused(MandatoryMissing(line.name));
        }
        var why;
        push, why := FindInCa(line, name[j], ca);
        if push.None? {
          return Refused(why);
        }
      } else {
        return Refused(InvalidType(line.value));
      }
      if push.Some? {
        SelectTakes(name, nid, last, j);
        subject := subject + [push.value];
      }
      if j < 0 {
        break;
      }
      last := j;
    }
    SelectSkips(name, nid, last + 1, |name|);
    assert name[..|name|] == name;
    r := Subject(subject);
  }

  /** The policy loop of do_body. */
  method ApplyPolicy(policy: seq<Line>, name: seq<Entry>, ca: seq<Entry>) returns (r: Result)
    ensures Decides(policy, name, ca, r)
    ensures r.Subject? <==> forall i | 0 <= i < |policy| :: Allows(policy[i], name, ca)
  {
    forall i | 0 <= i < |policy|
      ensures Allows(policy[i], name, ca) <==> Objection(policy[i], name, ca).None?
    {
      AllowsExactly(policy[i], name, ca);
    }
    var subject: seq<Entry> := [];
    var i := 0;
    while i < |policy|
      invariant i <= |policy|
      invariant forall k | 0 <= k < i :: Objection(policy[k], name, ca).None?
      invariant subject == SubjectOf(policy[..i], name)
    {
      var line := policy[i];
      if line.nid.None? {
        assert Objection(policy[i], name, ca) == Some(UnknownObject(line.name));
        return Refused(UnknownObject(line.name));
      }
      r := PickEntries(line, name, ca, subject);
      if r.Refused? {
        assert Objection(policy[i], name, ca) == Some(r.why);
        return;
      }
      assert policy[..i + 1][..i] == policy[..i];
      subject := r.entries;
      i := i + 1;
    }
    assert policy[..|policy|] == policy;
    r := Subject(subject);
  }
}
