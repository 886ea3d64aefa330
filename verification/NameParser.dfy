/**
 The subject tokeniser of the command line tools (parse_name in apps.c): a name written as
 /type0=value0/type1=value1... is cut into types and values, which are copied, without their
 escapes, into one buffer. C strings are sequences of characters other than NUL.
 */
module NameParser {
  import opened CStrings
  import opened Sequences
  import opened Wrappers

  /** A type and its value; mval is 0 for a name component of its own, -1 for one that joins the last. */
  datatype Element = Element(typ: string, value: string, mval: int)

  datatype Failure = NoSlash | EscapeAtEnd | EndInType(element: nat) | NotAdded

  datatype Parsed = Parsed(elements: seq<Element>) | Failed(why: Failure)

  // ----- What a subject means

  datatype Scan = Scan(text: string, stop: Option<char>, rest: string) | BadEscape

  function Before(c: char, s: Scan): Scan {
    match s
    case Scan(text, stop, rest) => Scan([c] + text, stop, rest)
    case BadEscape => BadEscape
  }

  /** Up to the first character of stops that is not escaped; what follows it is the rest. */
  function ScanTo(s: string, stops: set<char>): (r: Scan)
    ensures r.Scan? && r.stop.Some? ==> |r.text| + |r.rest| < |s| && r.stop.value in stops
    ensures r.Scan? && r.stop.None? ==> r.rest == "" && |r.text| <= |s|
  {
    if |s| == 0 then Scan("", None, "")
    else if s[0] == '\\' then
      if |s| == 1 then BadEscape else Before(s[1], ScanTo(s[2..], stops))
    else if s[0] in stops then Scan("", Some(s[0]), s[1..])
    else Before(s[0], ScanTo(s[1..], stops))
  }

  function ValueStops(multirdn: bool): set<char> {
    if multirdn then {'/', '+'} else {'/'}
  }

  function Mark(stop: Option<char>): int {
    if stop == Some('+') then -1 else 0
  }

  /** The elements of what is left, the next of which is element number n with the given mark. */
  function Elements(s: string, multirdn: bool, n: nat, mval: int): Parsed
    decreases |s|
  {
    if |s| == 0 then Parsed([])
    else
      match ScanTo(s, {'='})
      case BadEscape => Failed(EscapeAtEnd)
      case Scan(typ, _, rest) =>
        if |rest| == 0 then Failed(EndInType(n))
        else
          match ScanTo(rest, ValueStops(multirdn))
          case BadEscape => Failed(EscapeAtEnd)
          case Scan(value, stop, others) =>
            match Elements(others, multirdn, n + 1, Mark(stop))
            case Parsed(elements) => Parsed([Element(typ, value, mval)] + elements)
            case Failed(why) => Failed(why)
  }

  function Tokenise(subject: string, multirdn: bool): Parsed {
    if |subject| == 0 || subject[0] != '/' then Failed(NoSlash)
    else Elements(subject[1..], multirdn, 0, 0)
  }

  // ----- Writing a name, and reading it back

  predicate Special(c: char) {
    c == '\\' || c == '=' || c == '/' || c == '+'
  }

  function Escaped(text: string): string {
    if |text| == 0 then ""
    else (if Special(text[0]) then ['\\', text[0]] else [text[0]]) + Escaped(text[1..])
  }

  /** The elements after the separator of the first. */
  function WrittenRest(elements: seq<Element>): string
    decreases |elements|, 1
  {
    if |elements| == 0 then ""
    else Escaped(elements[0].typ) + "=" + Escaped(elements[0].value) + Tail(elements)
  }

  /** The separator and the elements after the first. */
  function Tail(elements: seq<Element>): string
    requires |elements| > 0
    decreases |elements|, 0
  {
    if |elements| == 1 then "" else (if elements[1].mval == 0 then "/" else "+") + WrittenRest(elements[1..])
  }

  function Written(elements: seq<Element>): string {
    "/" + WrittenRest(elements)
  }

  /** Marks that can be written: the first component stands alone, and others join it only if that is on. */
  predicate Writable(elements: seq<Element>, multirdn: bool, first: int) {
    && (|elements| > 0 ==> elements[0].mval == first)
    && forall k | 1 <= k < |elements| :: elements[k].mval == 0 || (elements[k].mval == -1 && multirdn)
  }

  /** Escaped text is scanned as the text, up to a stop or the end. */
  lemma {:induction false} ScanEscaped(text: string, tail: string, stops: set<char>)
    requires forall c <- stops :: Special(c) && c != '\\'
    requires |tail| > 0 ==> tail[0] in stops
    ensures ScanTo(Escaped(text) + tail, stops) ==
            if |tail| == 0 then Scan(text, None, "") else Scan(text, Some(tail[0]), tail[1..])
  {
    var s := Escaped(text) + tail;
    if |text| == 0 {
      assert s == tail;
    } else {
      var rest := Escaped(text[1..]) + tail;
      ScanEscaped(text[1..], tail, stops);
      assert [text[0]] + text[1..] == text;
      if Special(text[0]) {
        ConcatAssoc(['\\', text[0]], Escaped(text[1..]), tail);
        assert s[2..] == rest;
      } else {
        ConcatAssoc([text[0]], Escaped(text[1..]), tail);
        assert s[1..] == rest;
      }
    }
  }

  /** One written element is scanned as its type and its value. */
  lemma ElementScanned(e: Element, tail: string, multirdn: bool)
    requires |tail| > 0 ==> tail[0] in ValueStops(multirdn)
    ensures var rest := Escaped(e.value) + tail;
            && ScanTo(Escaped(e.typ) + "=" + Escaped(e.value) + tail, {'='}) == Scan(e.typ, Some('='), rest)
            && ScanTo(rest, ValueStops(multirdn)) ==
               (if |tail| == 0 then Scan(e.value, None, "") else Scan(e.value, Some(tail[0]), tail[1..]))
            && (|rest| == 0 <==> |e.value| == 0 && |tail| == 0)
  {
    var rest := Escaped(e.value) + tail;
    assert Escaped(e.typ) + "=" + Escaped(e.value) + tail == Escaped(e.typ) + ("=" + rest);
    ScanEscaped(e.typ, "=" + rest, {'='});
    assert ("=" + rest)[1..] == rest;
    ScanEscaped(e.value, tail, ValueStops(multirdn));
  }

  /** One written element is read, and then the rest, which starts with the mark of its separator. */
  lemma ElementRead(e: Element, tail: string, multirdn: bool, n: nat)
    requires |tail| > 0 ==> tail[0] in ValueStops(multirdn)
    ensures Elements(Escaped(e.typ) + "=" + Escaped(e.value) + tail, multirdn, n, e.mval) ==
            if |tail| == 0 then
              if e.value == "" then Failed(EndInType(n)) else Parsed([e])
            else
              match Elements(tail[1..], multirdn, n + 1, Mark(Some(tail[0])))
              case Parsed(elements) => Parsed([e] + elements)
              case Failed(why) => Failed(why)
  {
    ElementScanned(e, tail, multirdn);
    assert [e] + [] == [e];
  }

  /** The separator before the second element stands for that element's mark. */
  lemma TailReads(elements: seq<Element>, multirdn: bool, first: int)
    requires Writable(elements, multirdn, first) && |elements| > 1
    ensures var tail := Tail(elements);
            && |tail| > 0 && tail[0] in ValueStops(multirdn) && Mark(Some(tail[0])) == elements[1].mval
            && tail[1..] == WrittenRest(elements[1..])
    ensures Writable(elements[1..], multirdn, elements[1].mval)
  {
  }

  /**
   What is written is read back as it was, marks and all, exactly if the last value is not
   empty; a name that ends in an empty value is refused as ending in that element's type.
   */
  lemma {:induction false} RestRoundTrip(elements: seq<Element>, multirdn: bool, n: nat, first: int)
    requires Writable(elements, multirdn, first)
    ensures Elements(WrittenRest(elements), multirdn, n, first) ==
            if |elements| > 0 && elements[|elements| - 1].value == "" then Failed(EndInType(n + |elements| - 1))
            else Parsed(elements)
    decreases |elements|
  {
    if |elements| == 1 {
      assert elements == [elements[0]];
      ElementRead(elements[0], "", multirdn, n);
    } else if |elements| > 1 {
      var e, others := elements[0], elements[1..];
      assert [e] + others == elements;
      TailReads(elements, multirdn, first);
      RestRoundTrip(others, multirdn, n + 1, others[0].mval);
      ElementRead(e, Tail(elements), multirdn, n);
    }
  }

  lemma RoundTrip(elements: seq<Element>, multirdn: bool)
    requires Writable(elements, multirdn, 0)
    ensures Tokenise(Written(elements), multirdn) == Parsed(elements) <==>
            |elements| > 0 ==> elements[|elements| - 1].value != ""
  {
    RestRoundTrip(elements, multirdn, 0, 0);
    assert Written(elements)[1..] == WrittenRest(elements);
  }

  // ----- The characters

  predicate Plain(text: string) {
    '\\' !in text && '=' !in text && '/' !in text && '+' !in text
  }

  lemma {:induction false} PlainEscaped(text: string)
    requires Plain(text)
    ensures Escaped(text) == text
  {
    if |text| > 0 {
      PlainEscaped(text[1..]);
      assert [text[0]] + text[1..] == text;
    }
  }

  /** /type=value/type=value, or with a plus for the second slash. */
  lemma TwoElements(t: string, v: string, sep: char, u: string, w: string, multirdn: bool)
    requires Plain(t) && Plain(v) && Plain(u) && Plain(w) && w != ""
    requires sep == '/' || (sep == '+' && multirdn)
    ensures var first, second := t + "=" + v, u + "=" + w;
            Tokenise("/" + (first + ([sep] + second)), multirdn) ==
            Parsed([Element(t, v, 0), Element(u, w, if sep == '+' then -1 else 0)])
  {
    var elements := [Element(t, v, 0), Element(u, w, if sep == '+' then -1 else 0)];
    PlainEscaped(t);
    PlainEscaped(v);
    PlainEscaped(u);
    PlainEscaped(w);
    assert elements[1..] == [elements[1]];
    assert WrittenRest([elements[1]]) == u + "=" + w + "" == u + "=" + w;
    assert WrittenRest(elements) == t + "=" + v + ([sep] + (u + "=" + w));
    RoundTrip(elements, multirdn);
  }

  /** After a backslash any character stands for itself. */
  lemma EscapedElement(t: string, c: char, multirdn: bool)
    requires Plain(t)
    ensures Tokenise("/" + (t + ("=" + ['\\', c])), multirdn) == Parsed([Element(t, [c], 0)])
  {
    var value := ['\\', c];
    var s := t + ("=" + value);
    PlainEscaped(t);
    ScanEscaped(t, "=" + value, {'='});
    assert ("=" + value)[1..] == value;
    assert value[2..] == "";
    assert ScanTo("", ValueStops(multirdn)) == Scan("", None, "");
    assert [c] + "" == [c];
    assert ScanTo(value, ValueStops(multirdn)) == Scan([c], None, "");
    assert ScanTo(s, {'='}) == Scan(t, Some('='), value);
    assert [Element(t, [c], 0)] + [] == [Element(t, [c], 0)];
    assert Elements("", multirdn, 1, 0) == Parsed([]);
    assert Elements(s, multirdn, 0, 0) == Parsed([Element(t, [c], 0)]);
    assert ("/" + s)[1..] == s;
  }

  lemma {:induction false} ScanWhole(text: string, stops: set<char>)
    requires '\\' !in text && forall c <- text :: c !in stops
    ensures ScanTo(text, stops) == Scan(text, None, "")
  {
    if |text| > 0 {
      ScanWhole(text[1..], stops);
      assert [text[0]] + text[1..] == text;
    }
  }

  /** Without the option a plus, like a second equals sign, is part of the value. */
  lemma PlusInValue(t: string, v: string)
    requires Plain(t) && v != "" && '\\' !in v && '/' !in v
    ensures Tokenise("/" + (t + ("=" + v)), false) == Parsed([Element(t, v, 0)])
  {
    var s := t + ("=" + v);
    PlainEscaped(t);
    ScanEscaped(t, "=" + v, {'='});
    ScanWhole(v, {'/'});
    assert ("=" + v)[1..] == v;
    assert ScanTo(s, {'='}) == Scan(t, Some('='), v);
    assert [Element(t, v, 0)] + [] == [Element(t, v, 0)];
    assert Elements("", false, 1, 0) == Parsed([]);
    assert Elements(s, false, 0, 0) == Parsed([Element(t, v, 0)]);
    assert ("/" + s)[1..] == s;
  }

  lemma {:induction false} ScanBroken(text: string, stops: set<char>)
    requires '\\' !in text && '\\' !in stops && forall c <- text :: c !in stops
    ensures ScanTo(text + ['\\'], stops) == BadEscape
  {
    if |text| > 0 {
      ScanBroken(text[1..], stops);
      assert (text + ['\\'])[1..] == text[1..] + ['\\'];
    }
  }

  /** What is wrong with a subject without its slash, with a type and no more, and with nothing after a backslash. */
  lemma BadSubjects(t: string, multirdn: bool)
    requires Plain(t)
    ensures Tokenise(t, multirdn) == Failed(NoSlash)
    ensures t != "" ==> Tokenise("/" + t, multirdn) == Failed(EndInType(0))
    ensures Tokenise("/" + (t + ['\\']), multirdn) == Failed(EscapeAtEnd)
  {
    ScanWhole(t, {'='});
    ScanBroken(t, {'='});
    assert ("/" + t)[1..] == t;
    assert ("/" + (t + ['\\']))[1..] == t + ['\\'];
  }

  // ----- The buffer

  function Prepend(text: string, s: Scan): Scan {
    match s
    case Scan(more, stop, rest) => Scan(text + more, stop, rest)
    case BadEscape => BadEscape
  }

  lemma PrependBefore(text: string, c: char, s: Scan)
    ensures Prepend(text, Before(c, s)) == Prepend(text + [c], s)
  {
    if s.Scan? {
      assert text + ([c] + s.text) == (text + [c]) + s.text;
    }
  }

  /** The text copied from s between start and sp, and whatever is still to come, is what the scan yields. */
  ghost predicate CopiedTo(s: string, start: nat, sp: nat, stops: set<char>, copied: string) {
    start <= sp <= |s| && ScanTo(s[start..], stops) == Prepend(copied, ScanTo(s[sp..], stops))
  }

  lemma CopyOne(s: string, start: nat, sp: nat, stops: set<char>, copied: string)
    requires CopiedTo(s, start, sp, stops, copied) && sp < |s|
    ensures s[sp] == '\\' && sp + 1 == |s| ==> ScanTo(s[start..], stops) == BadEscape
    ensures s[sp] == '\\' && sp + 1 < |s| ==> CopiedTo(s, start, sp + 2, stops, copied + [s[sp + 1]])
    ensures s[sp] != '\\' && s[sp] in stops ==>
              ScanTo(s[start..], stops) == Scan(copied, Some(s[sp]), s[sp + 1..])
    ensures s[sp] != '\\' && s[sp] !in stops ==> CopiedTo(s, start, sp + 1, stops, copied + [s[sp]])
  {
    var rest := s[sp..];
    assert rest[1..] == s[sp + 1..];
    if s[sp] == '\\' {
      if sp + 1 < |s| {
        assert rest[2..] == s[sp + 2..];
        PrependBefore(copied, s[sp + 1], ScanTo(s[sp + 2..], stops));
      }
    } else if s[sp] in stops {
      assert copied + "" == copied;
    } else {
      PrependBefore(copied, s[sp], ScanTo(s[sp + 1..], stops));
    }
  }

  /** *bp = c, seen from the text that is being copied. */
  method Put(buf: array<char>, at: nat, bp: nat, c: char)
    requires at <= bp < buf.Length
    modifies buf
    ensures buf[at..bp + 1] == old(buf[at..bp]) + [c]
    ensures buf[..at] == old(buf[..at])
  {
    buf[bp] := c;
  }

  /** The loop over a type, and the loop over a value: up to a stop, text is copied without its escapes. */
  method Copy(s: string, start: nat, stops: set<char>, buf: array<char>, at: nat)
    returns (ok: bool, sp: nat, bp: nat, stop: Option<char>)
    requires start <= |s| && at + (|s| - start) <= buf.Length
    modifies buf
    ensures ok <==> ScanTo(s[start..], stops).Scan?
    ensures ok ==> start <= sp <= |s| && at <= bp <= buf.Length
                   && ScanTo(s[start..], stops) == Scan(buf[at..bp], stop, s[sp..])
                   && bp - at + (if stop.Some? then 1 else 0) <= sp - start
    ensures buf[..at] == old(buf[..at])
  {
    sp, bp, stop := start, at, None;
    ghost var copied := "";
    while sp < |s|
      invariant start <= sp <= |s| && at <= bp && bp - at <= sp - start
      invariant buf[at..bp] == copied
      invariant CopiedTo(s, start, sp, stops, copied)
      invariant buf[..at] == old(buf[..at])
    {
      CopyOne(s, start, sp, stops, copied);
      if s[sp] == '\\' {
        sp := sp + 1;
        if sp == |s| {
          return false, sp, bp, None;
        }
      } else if s[sp] in stops {
        stop := Some(s[sp]);
        sp := sp + 1;
        return true, sp, bp, stop;
      }
      Put(buf, at, bp, s[sp]);
      copied := copied + [s[sp]];
      bp, sp := bp + 1, sp + 1;
    }
    ok := true;
  }

  // ----- The arrays

  /** The first elements are in the buffer up to bp, where the arrays say. */
  ghost predicate Stored(b: seq<char>, types: seq<nat>, values: seq<nat>, mval: seq<int>, done: seq<Element>) {
    && |types| == |values| == |mval| && |done| < |types|
    && (forall k | 0 <= k < |done| :: TextAt(b, types[k], done[k].typ))
    && (forall k | 0 <= k < |done| :: TextAt(b, values[k], done[k].value))
    && (forall k | 0 <= k < |done| :: mval[k] == done[k].mval)
  }

  /** Where the arrays point, C strings with the element's type and value start. */
  lemma StoredStrings(b: seq<char>, types: seq<nat>, values: seq<nat>, mval: seq<int>, done: seq<Element>, i: nat)
    requires Stored(b, types, values, mval, done) && i < |done|
    ensures CString(b, types[i]) == done[i].typ && CString(b, values[i]) == done[i].value
    ensures mval[i] == done[i].mval
  {
    TextIsCString(b, types[i], done[i].typ);
    TextIsCString(b, values[i], done[i].value);
  }

  function Join(done: seq<Element>, p: Parsed): Parsed {
    match p
    case Parsed(elements) => Parsed(done + elements)
    case Failed(why) => Failed(why)
  }

  /** What the scan leaves: a buffer, and for each element the places of its type and its value, and its mark. */
  class Arrays {
    const buf: array<char>
    const types: array<nat>
    const values: array<nat>
    const mval: array<int>

    predicate Sized(n: nat) {
      && buf.Length == n + 1
      && types.Length == values.Length == mval.Length == (n + 1) / 2 + 1
      && types != values
    }

    /** Sized from the length of the subject, which the types and values with their terminators never exceed. */
    constructor (n: nat)
      ensures Sized(n) && fresh(buf) && fresh(types) && fresh(values) && fresh(mval)
    {
      var maxNe := (n + 1) / 2 + 1;
      buf := new char[n + 1];
      types := new nat[maxNe];
      values := new nat[maxNe];
      mval := new int[maxNe];
    }
  }

  /** The elements done, and those of what is left, are those of the subject. */
  ghost predicate Progress(subject: string, multirdn: bool, sp: nat, mark: int, done: seq<Element>) {
    && sp <= |subject|
    && Tokenise(subject, multirdn) == Join(done, Elements(subject[sp..], multirdn, |done|, mark))
  }

  lemma JoinOne(done: seq<Element>, e: Element, p: Parsed)
    ensures Join(done, Join([e], p)) == Join(done + [e], p)
  {
    if p.Parsed? {
      assert done + ([e] + p.elements) == (done + [e]) + p.elements;
    }
  }

  /** One more element: its type ends before sp1, its value before sp2. */
  lemma ProgressOne(subject: string, multirdn: bool, sp: nat, mark: int, done: seq<Element>,
                    typ: string, eq: Option<char>, sp1: nat, value: string, stop: Option<char>, sp2: nat)
    requires Progress(subject, multirdn, sp, mark, done) && sp < |subject|
    requires sp1 < |subject| && ScanTo(subject[sp..], {'='}) == Scan(typ, eq, subject[sp1..])
    requires sp2 <= |subject| && ScanTo(subject[sp1..], ValueStops(multirdn)) == Scan(value, stop, subject[sp2..])
    ensures Progress(subject, multirdn, sp2, Mark(stop), done + [Element(typ, value, mark)])
  {
    JoinOne(done, Element(typ, value, mark), Elements(subject[sp2..], multirdn, |done| + 1, Mark(stop)));
  }

  /** What is wrong with the next element, if anything. */
  function OneFails(s: string, multirdn: bool, n: nat): Option<Failure> {
    match ScanTo(s, {'='})
    case BadEscape => Some(EscapeAtEnd)
    case Scan(_, _, rest) =>
      if |rest| == 0 then Some(EndInType(n))
      else if ScanTo(rest, ValueStops(multirdn)).BadEscape? then Some(EscapeAtEnd)
      else None
  }

  lemma ProgressFails(subject: string, multirdn: bool, sp: nat, mark: int, done: seq<Element>)
    requires Progress(subject, multirdn, sp, mark, done) && sp < |subject|
    requires OneFails(subject[sp..], multirdn, |done|).Some?
    ensures Tokenise(subject, multirdn) == Failed(OneFails(subject[sp..], multirdn, |done|).value)
  {
  }

  /** At the end of the subject no mark is left to be used. */
  lemma ProgressEnds(subject: string, multirdn: bool, mark: int, other: int, done: seq<Element>)
    requires Progress(subject, multirdn, |subject|, mark, done)
    ensures Progress(subject, multirdn, |subject|, other, done) && Tokenise(subject, multirdn) == Parsed(done)
  {
    assert done + [] == done;
  }

  /** One more element stored: its texts lie past those of the others. */
  lemma StoredMore(b: seq<char>, types: seq<nat>, values: seq<nat>, mval: seq<int>, done: seq<Element>,
                   c: seq<char>, types2: seq<nat>, values2: seq<nat>, mval2: seq<int>, e: Element)
    requires Stored(b, types, values, mval, done) && b <= c
    requires |types2| == |values2| == |mval2| == |types| && |done| + 1 < |types|
    requires types2[..|done|] == types[..|done|] && values2[..|done|] == values[..|done|]
    requires mval2[..|done| + 1] == mval[..|done| + 1] && mval[|done|] == e.mval
    requires TextAt(c, types2[|done|], e.typ) && TextAt(c, values2[|done|], e.value)
    ensures Stored(c, types2, values2, mval2, done + [e])
  {
    forall k | 0 <= k < |done|
      ensures types2[k] == types[k] && values2[k] == values[k] && mval2[k] == mval[k]
    {
      assert types2[k] == types2[..|done|][k] && values2[k] == values2[..|done|][k];
      assert mval2[k] == mval2[..|done| + 1][k];
    }
    assert mval2[|done|] == mval2[..|done| + 1][|done|];
  }

  /** Nothing is copied that is not in the subject. */
  lemma {:induction false} ScanKeepsOut(s: string, stops: set<char>, c: char)
    requires c !in s && ScanTo(s, stops).Scan?
    ensures c !in ScanTo(s, stops).text
    decreases |s|
  {
    if |s| > 0 {
      if s[0] == '\\' {
        ScanKeepsOut(s[2..], stops, c);
      } else if s[0] !in stops {
        ScanKeepsOut(s[1..], stops, c);
      }
    }
  }

  /** A type or a value copied with its terminator; nothing before it changes. */
  method CopyText(s: string, start: nat, stops: set<char>, buf: array<char>, at: nat, always: bool)
    returns (ok: bool, sp: nat, bp: nat, stop: Option<char>, ghost text: string)
    requires '\0' !in s && start <= |s| && at + (|s| - start) < buf.Length
    modifies buf
    ensures ok <==> ScanTo(s[start..], stops).Scan?
    ensures ok ==> start <= sp <= |s| && ScanTo(s[start..], stops) == Scan(text, stop, s[sp..])
    ensures ok ==> at <= bp <= buf.Length && bp - at <= sp - start + (if stop.Some? then 0 else 1)
    ensures ok && stop.None? ==> sp == |s| && (!always ==> bp - at <= sp - start)
    ensures ok && (stop.Some? || always) ==> TextAt(buf[..bp], at, text)
    ensures buf[..at] == old(buf[..at])
  {
    text := "";
    ok, sp, bp, stop := Copy(s, start, stops, buf, at);
    if ok {
      text := buf[at..bp];
      ScanKeepsOut(s[start..], stops, '\0');
      if stop.Some? || always {
        buf[bp] := '\0';
        bp := bp + 1;
        TextPlaced(buf[..bp], at, text);
      }
    }
  }

  lemma TextStays(b: seq<char>, c: seq<char>, at: nat, text: string)
    requires TextAt(b, at, text) && b <= c
    ensures TextAt(c, at, text)
  {
  }

  /** One round of the outer loop: a type, and a value with the mark of the next element. */
  method SplitOne(subject: string, multirdn: bool, a: Arrays, from: nat, at: nat, neNum: nat)
    returns (why: Option<Failure>, sp: nat, bp: nat, stop: Option<char>, ghost sp1: nat, ghost scans: (Scan, Scan))
    requires '\0' !in subject && from < |subject| && a.Sized(|subject|)
    requires at + 1 <= from && 2 * neNum + 1 <= from
    modifies a.buf, a.types, a.values, a.mval
    ensures why == OneFails(subject[from..], multirdn, neNum)
    ensures why.None? ==>
              && from + 2 <= sp <= |subject| && bp + (if sp < |subject| then 1 else 0) <= sp
              && (stop.None? ==> sp == |subject|)
              && sp1 < |subject| && scans.0.Scan? && scans.1.Scan? && scans.1.stop == stop
              && ScanTo(subject[from..], {'='}) == scans.0 && scans.0.rest == subject[sp1..]
              && ScanTo(subject[sp1..], ValueStops(multirdn)) == scans.1 && scans.1.rest == subject[sp..]
              && a.types[neNum] <= bp && TextAt(a.buf[..bp], a.types[neNum], scans.0.text)
              && a.values[neNum] <= bp && TextAt(a.buf[..bp], a.values[neNum], scans.1.text)
              && (stop.Some? ==> a.mval[neNum + 1] == Mark(stop))
              && old(a.buf[..at]) <= a.buf[..bp]
    ensures a.types[..neNum] == old(a.types[..neNum]) && a.values[..neNum] == old(a.values[..neNum])
    ensures a.mval[..neNum + 1] == old(a.mval[..neNum + 1])
  {
    why, sp1, scans := None, from, (BadEscape, BadEscape);
    var ok;
    ghost var typ, value;
    a.types[neNum] := at;
    ok, sp, bp, stop, typ := CopyText(subject, from, {'='}, a.buf, at, false);
    if !ok {
      why := Some(EscapeAtEnd);
      return;
    }
    if sp == |subject| {
      why := Some(EndInType(neNum));
      return;
    }
    sp1, scans := sp, (Scan(typ, stop, subject[sp..]), BadEscape);
    ghost var mid := a.buf[..bp];
    a.values[neNum] := bp;
    ok, sp, bp, stop, value := CopyText(subject, sp, ValueStops(multirdn), a.buf, bp, true);
    if !ok {
      why := Some(EscapeAtEnd);
      return;
    }
    if stop.Some? {
      a.mval[neNum + 1] := Mark(stop);
    }
    scans := (scans.0, Scan(value, stop, subject[sp..]));
    assert a.buf[..|mid|] == mid && mid <= a.buf[..bp];
    TextStays(mid, a.buf[..bp], at, typ);
  }

  lemma StoredLonger(b: seq<char>, c: seq<char>, types: seq<nat>, values: seq<nat>, mval: seq<int>, done: seq<Element>)
    requires Stored(b, types, values, mval, done) && b <= c
    ensures Stored(c, types, values, mval, done)
  {
  }

  /** The loops of parse_name that cut the subject up. */
  method Split(subject: string, multirdn: bool, a: Arrays) returns (why: Option<Failure>, neNum: nat)
    requires '\0' !in subject && a.Sized(|subject|)
    modifies a.buf, a.types, a.values, a.mval
    ensures match Tokenise(subject, multirdn)
            case Failed(w) => why == Some(w)
            case Parsed(elements) =>
              && why == None && neNum == |elements|
              && Stored(a.buf[..], a.types[..], a.values[..], a.mval[..], elements)
  {
    why, neNum := None, 0;
    if |subject| == 0 || subject[0] != '/' {
      return Some(NoSlash), 0;
    }
    var sp: nat, bp: nat := 1, 0;
    a.mval[0] := 0;
    ghost var done: seq<Element> := [];
    while sp < |subject|
      invariant 1 <= sp <= |subject| && |done| == neNum && why == None
      invariant bp + (if sp < |subject| then 1 else 0) <= sp && 2 * neNum + 1 <= sp
      invariant Stored(a.buf[..bp], a.types[..], a.values[..], a.mval[..], done)
      invariant Progress(subject, multirdn, sp, a.mval[neNum], done)
    {
      ghost var from, mark, b := sp, a.mval[neNum], a.buf[..bp];
      ghost var types, values, mval := a.types[..], a.values[..], a.mval[..];
      var stop;
      ghost var sp1, scans;
      why, sp, bp, stop, sp1, scans := SplitOne(subject, multirdn, a, sp, bp, neNum);
      if why.Some? {
        ProgressFails(subject, multirdn, from, mark, done);
        return;
      }
      ghost var e := Element(scans.0.text, scans.1.text, mark);
      ProgressOne(subject, multirdn, from, mark, done, e.typ, scans.0.stop, sp1, e.value, stop, sp);
      StoredMore(b, types, values, mval, done, a.buf[..bp], a.types[..], a.values[..], a.mval[..], e);
      done := done + [e];
      neNum := neNum + 1;
      if stop.None? {
        ProgressEnds(subject, multirdn, Mark(stop), a.mval[neNum], done);
      }
    }
    ProgressEnds(subject, multirdn, a.mval[neNum], 0, done);
    StoredLonger(a.buf[..bp], a.buf[..], a.types[..], a.values[..], a.mval[..], done);
  }

  // ----- The name

  datatype NameEntry = NameEntry(nid: nat, value: string, mval: int)

  datatype Name = Name(entries: seq<NameEntry>) | NoName(why: Failure)

  /** The name with one more element, if its type is known, its value not empty and the library takes it. */
  function WithElement(n: Name, e: Element, nid: string -> Option<nat>, added: (nat, string) -> bool): Name {
    if n.NoName? || nid(e.typ).None? || |e.value| == 0 then n
    else if !added(nid(e.typ).value, e.value) then NoName(NotAdded)
    else Name(n.entries + [NameEntry(nid(e.typ).value, e.value, e.mval)])
  }

  /** The entries for the elements, in order; a value the library refuses ends it all. */
  function Named(elements: seq<Element>, nid: string -> Option<nat>, added: (nat, string) -> bool): Name {
    if |elements| == 0 then Name([])
    else WithElement(Named(elements[..|elements| - 1], nid, added), elements[|elements| - 1], nid, added)
  }

  lemma NamedStep(elements: seq<Element>, i: nat, nid: string -> Option<nat>, added: (nat, string) -> bool)
    requires i < |elements|
    ensures Named(elements[..i + 1], nid, added) ==
            WithElement(Named(elements[..i], nid, added), elements[i], nid, added)
  {
    assert elements[..i + 1][..i] == elements[..i];
  }

  lemma {:induction false} NamedStaysRefused(elements: seq<Element>, i: nat, nid: string -> Option<nat>,
                                             added: (nat, string) -> bool)
    requires i <= |elements| && Named(elements[..i], nid, added).NoName?
    ensures Named(elements, nid, added) == Named(elements[..i], nid, added)
    decreases |elements| - i
  {
    if i == |elements| {
      assert elements[..i] == elements;
    } else {
      NamedStep(elements, i, nid, added);
      NamedStaysRefused(elements, i + 1, nid, added);
    }
  }

  predicate Wanted(e: Element, nid: string -> Option<nat>) {
    nid(e.typ).Some? && e.value != ""
  }

  /**
   The entries are, in the order of the elements, those with a known type and a value: entry
   i is that of the element at at[i], with its own value and mark.
   */
  ghost predicate InOrder(elements: seq<Element>, entries: seq<NameEntry>, at: seq<nat>, nid: string -> Option<nat>) {
    && |at| == |entries|
    && (forall i, j | 0 <= i < j < |at| :: at[i] < at[j])
    && (forall i | 0 <= i < |at| ::
          && at[i] < |elements| && Wanted(elements[at[i]], nid)
          && entries[i] == NameEntry(nid(elements[at[i]].typ).value, elements[at[i]].value, elements[at[i]].mval))
    && (forall k | 0 <= k < |elements| && Wanted(elements[k], nid) :: k in at)
  }

  /** The entries of a subject that could be read. */
  ghost predicate HasEntries(p: Parsed, entries: seq<NameEntry>, nid: string -> Option<nat>) {
    p.Parsed? && exists at :: InOrder(p.elements, entries, at, nid)
  }

  /** There is a name exactly if the library takes every such element, and it has them in order. */
  lemma {:induction false} NamedInOrder(elements: seq<Element>, nid: string -> Option<nat>,
                                        added: (nat, string) -> bool)
    ensures Named(elements, nid, added).Name? <==>
            forall k | 0 <= k < |elements| && Wanted(elements[k], nid) ::
              added(nid(elements[k].typ).value, elements[k].value)
    ensures Named(elements, nid, added).NoName? ==> Named(elements, nid, added).why == NotAdded
    ensures Named(elements, nid, added).Name? ==>
              exists at :: InOrder(elements, Named(elements, nid, added).entries, at, nid)
  {
    if |elements| == 0 {
      assert InOrder(elements, [], [], nid);
    } else {
      var n := |elements| - 1;
      var front := elements[..n];
      NamedInOrder(front, nid, added);
      assert elements == front + [elements[n]];
      if Named(elements, nid, added).Name? {
        var entries := Named(front, nid, added).entries;
        var at :| InOrder(front, entries, at, nid);
        OneMoreInOrder(front, elements[n], entries, at, nid);
      }
    }
  }

  lemma OneMoreInOrder(front: seq<Element>, e: Element, entries: seq<NameEntry>, at: seq<nat>,
                       nid: string -> Option<nat>)
    requires InOrder(front, entries, at, nid)
    ensures if Wanted(e, nid) then InOrder(front + [e], entries + [NameEntry(nid(e.typ).value, e.value, e.mval)],
                                           at + [|front|], nid)
            else InOrder(front + [e], entries, at, nid)
  {
    if Wanted(e, nid) {
      forall k | 0 <= k < |front + [e]| && Wanted((front + [e])[k], nid)
        ensures k in at + [|front|]
      {
        if k < |front| {
          assert Wanted(front[k], nid);
        }
      }
    }
  }

  /** The last loop of parse_name. */
  method BuildName(a: Arrays, neNum: nat, nid: string -> Option<nat>, added: (nat, string) -> bool,
                   ghost elements: seq<Element>)
    returns (r: Name)
    requires neNum == |elements| && Stored(a.buf[..], a.types[..], a.values[..], a.mval[..], elements)
    ensures r == Named(elements, nid, added)
  {
    var entries: seq<NameEntry> := [];
    for i := 0 to neNum
      invariant Named(elements[..i], nid, added) == Name(entries)
    {
      StoredStrings(a.buf[..], a.types[..], a.values[..], a.mval[..], elements, i);
      NamedStep(elements, i, nid, added);
      var typ, value := CString(a.buf[..], a.types[i]), CString(a.buf[..], a.values[i]);
      if nid(typ).None? || |value| == 0 {
        continue;
      }
      if !added(nid(typ).value, value) {
        NamedStaysRefused(elements, i + 1, nid, added);
        return NoName(NotAdded);
      }
      entries := entries + [NameEntry(nid(typ).value, value, a.mval[i])];
    }
    assert elements[..neNum] == elements;
    r := Name(entries);
  }

  /** parse_name; nid is the table of attribute names, added what X509_NAME_add_entry_by_NID answers. */
  method ParseName(subject: string, multirdn: bool, nid: string -> Option<nat>, added: (nat, string) -> bool)
    returns (r: Name)
    requires '\0' !in subject
    ensures r == match Tokenise(subject, multirdn)
                 case Failed(why) => NoName(why)
                 case Parsed(elements) => Named(elements, nid, added)
    ensures r.Name? ==> HasEntries(Tokenise(subject, multirdn), r.entries, nid)
  {
    var a := new Arrays(|subject|);
    var why, neNum := Split(subject, multirdn, a);
    if why.Some? {
      return NoName(why.value);
    }
    ghost var elements := Tokenise(subject, multirdn).elements;
    NamedInOrder(elements, nid, added);
    r := BuildName(a, neNum, nid, added, elements);
  }
}
