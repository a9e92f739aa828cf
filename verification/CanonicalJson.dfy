/**
 `canonicalise` (backend-nest/src/backup/snapshot.codec.ts:83-93): the printed
 form whose hash a snapshot carries. String escaping follows section 7 of RFC
 8259 as `JSON.stringify` applies it, lone surrogates included. What the text says
 is what the reader of `JsonText` reads in it.
 */
module CanonicalJson {
  import opened Wrappers
  import opened JsText
  import opened JsonText

  /** A JavaScript value as `canonicalise` sees it, numbers as `JSON.stringify` prints them. Objects keep their insertion order. */
  datatype Json =
    | JUndefined
    | JNull
    | JBool(b: bool)
    | JNumber(n: NumberText)
    | JString(s: Text)
    | JArray(items: seq<Json>)
    | JObject(entries: seq<Entry>)

  datatype Entry = Entry(key: Text, value: Json)

  function EntryKey(e: Entry): Text { e.key }

  /** An object holds each key once, at every depth. */
  ghost predicate WellFormed(v: Json) {
    match v
    case JArray(items) => forall i :: 0 <= i < |items| ==> WellFormed(items[i])
    case JObject(es) => DistinctKeys(EntryKey, es) && forall i :: 0 <= i < |es| ==> WellFormed(es[i].value)
    case _ => true
  }

  // ------------------------------------------------------------------ printing

  const QUOTE: CodeUnit := 34
  const COMMA: CodeUnit := 44
  const COLON: CodeUnit := 58
  const OPEN_BRACKET: CodeUnit := 91
  const CLOSE_BRACKET: CodeUnit := 93
  const OPEN_BRACE: CodeUnit := 123
  const CLOSE_BRACE: CodeUnit := 125
  const NULL_TEXT: Text := [110, 117, 108, 108]
  const TRUE_TEXT: Text := [116, 114, 117, 101]
  const FALSE_TEXT: Text := [102, 97, 108, 115, 101]

  function HexDigit(d: int): CodeUnit
    requires 0 <= d < 16
  {
    if d < 10 then 48 + d else 87 + d
  }

  function Hex4(u: CodeUnit): Text {
    [HexDigit(u / 4096), HexDigit(u / 256 % 16), HexDigit(u / 16 % 16), HexDigit(u % 16)]
  }

  /** One code unit that is not part of a surrogate pair. */
  function EscapeUnit(u: CodeUnit): Text {
    if u == 34 then [92, 34]
    else if u == 92 then [92, 92]
    else if u == 8 then [92, 98]
    else if u == 12 then [92, 102]
    else if u == 10 then [92, 110]
    else if u == 13 then [92, 114]
    else if u == 9 then [92, 116]
    else if u < 32 || IsHigh(u) || IsLow(u) then [92, 117] + Hex4(u)
    else [u]
  }

  predicate StartsWithPair(s: Text) {
    |s| >= 2 && IsHigh(s[0]) && IsLow(s[1])
  }

  function Escape(s: Text): Text {
    if s == [] then []
    else if StartsWithPair(s) then [s[0], s[1]] + Escape(s[2..])
    else EscapeUnit(s[0]) + Escape(s[1..])
  }

  /** `JSON.stringify` of a string. */
  function Quoted(s: Text): Text {
    [QUOTE] + Escape(s) + [QUOTE]
  }

  function Join(parts: seq<Text>): Text {
    if parts == [] then []
    else if |parts| == 1 then parts[0]
    else parts[0] + [COMMA] + Join(parts[1..])
  }

  /** Entries whose value is not undefined, in insertion order. */
  function Defined(es: seq<Entry>): (kept: seq<Entry>)
    ensures forall e :: e in kept <==> e in es && e.value != JUndefined
  {
    if es == [] then []
    else (if es[0].value == JUndefined then [] else [es[0]]) + Defined(es[1..])
  }

  lemma {:induction false} DefinedKeepsKeysDistinct(es: seq<Entry>)
    requires DistinctKeys(EntryKey, es)
    ensures DistinctKeys(EntryKey, Defined(es))
  {
    if es != [] {
      assert forall i, j :: 0 <= i < j < |es[1..]| ==> EntryKey(es[1..][i]) == EntryKey(es[i + 1]) && EntryKey(es[1..][j]) == EntryKey(es[j + 1]);
      DefinedKeepsKeysDistinct(es[1..]);
      var rest := Defined(es[1..]);
      forall i | 0 <= i < |rest|
        ensures EntryKey(rest[i]) != EntryKey(es[0])
      {
        assert rest[i] in es[1..];
        var j :| 0 <= j < |es[1..]| && es[1..][j] == rest[i];
        assert es[j + 1] == rest[i];
      }
    }
  }

  /** The entries `canonicalise` prints, in the order it prints them. */
  function SortedEntries(es: seq<Entry>): (sorted: seq<Entry>)
    requires DistinctKeys(EntryKey, es)
    ensures AscendingBy(EntryKey, sorted)
    ensures forall e :: e in sorted <==> e in es && e.value != JUndefined
  {
    DefinedKeepsKeysDistinct(es);
    SortBy(EntryKey, Defined(es))
  }

  function Canonicalise(v: Json): (text: Text)
    requires WellFormed(v)
    ensures text != []
    decreases v
  {
    match v
    case JUndefined => NULL_TEXT
    case JNull => NULL_TEXT
    case JBool(b) => if b then TRUE_TEXT else FALSE_TEXT
    case JNumber(n) => n
    case JString(s) => Quoted(s)
    case JArray(items) =>
      [OPEN_BRACKET] + Join(seq(|items|, i requires 0 <= i < |items| => Canonicalise(items[i]))) + [CLOSE_BRACKET]
    case JObject(es) =>
      var sorted := SortedEntries(es);
      assert forall i :: 0 <= i < |sorted| ==> sorted[i] in es;
      [OPEN_BRACE] + Join(seq(|sorted|, i requires 0 <= i < |sorted| =>
        assert sorted[i] in es; Quoted(sorted[i].key) + [COLON] + Canonicalise(sorted[i].value))) + [CLOSE_BRACE]
  }

  ghost function ItemParts(items: seq<Json>): (parts: seq<Text>)
    requires forall i :: 0 <= i < |items| ==> WellFormed(items[i])
  {
    seq(|items|, i requires 0 <= i < |items| => Canonicalise(items[i]))
  }

  ghost function EntryParts(es: seq<Entry>): (parts: seq<Text>)
    requires forall i :: 0 <= i < |es| ==> WellFormed(es[i].value)
  {
    seq(|es|, i requires 0 <= i < |es| => Quoted(es[i].key) + [COLON] + Canonicalise(es[i].value))
  }

  lemma ObjectText(es: seq<Entry>)
    requires WellFormed(JObject(es))
    ensures forall i :: 0 <= i < |SortedEntries(es)| ==> WellFormed(SortedEntries(es)[i].value)
    ensures Canonicalise(JObject(es)) == [OPEN_BRACE] + Join(EntryParts(SortedEntries(es))) + [CLOSE_BRACE]
  {
    var sorted := SortedEntries(es);
    forall i | 0 <= i < |sorted|
      ensures WellFormed(sorted[i].value)
    {
      assert sorted[i] in es;
    }
    assert EntryParts(sorted) == seq(|sorted|, i requires 0 <= i < |sorted| =>
        assert sorted[i] in es; Quoted(sorted[i].key) + [COLON] + Canonicalise(sorted[i].value));
  }

  // ------------------------------------------------------------------- meaning

  /** Undefined reads as null, and an undefined member as no member. */
  ghost function Meaning(v: Json): Value
    decreases v
  {
    match v
    case JUndefined => VNull
    case JNull => VNull
    case JBool(b) => VBool(b)
    case JNumber(n) => VNumber(n)
    case JString(s) => VString(s)
    case JArray(items) => VArray(seq(|items|, i requires 0 <= i < |items| => Meaning(items[i])))
    case JObject(es) => VObject(Members(es))
  }

  ghost function Members(es: seq<Entry>): map<Text, Value>
    decreases es
  {
    if es == [] then map[]
    else if es[0].value == JUndefined then Members(es[1..])
    else Members(es[1..])[es[0].key := Meaning(es[0].value)]
  }

  lemma TailDistinct(es: seq<Entry>)
    requires es != [] && DistinctKeys(EntryKey, es)
    ensures DistinctKeys(EntryKey, es[1..])
    ensures forall e :: e in es[1..] ==> e.key != es[0].key
  {
    var tail := es[1..];
    forall i, j | 0 <= i < j < |tail|
      ensures EntryKey(tail[i]) != EntryKey(tail[j])
    {
      assert EntryKey(es[i + 1]) != EntryKey(es[j + 1]);
    }
    forall e | e in tail
      ensures e.key != es[0].key
    {
      var i :| 0 <= i < |tail| && tail[i] == e;
      assert EntryKey(es[0]) != EntryKey(es[i + 1]);
    }
  }

  lemma {:induction false} MemberOfEntry(es: seq<Entry>, e: Entry)
    requires DistinctKeys(EntryKey, es) && e in es && e.value != JUndefined
    ensures e.key in Members(es) && Members(es)[e.key] == Meaning(e.value)
  {
    TailDistinct(es);
    if e != es[0] {
      MemberOfEntry(es[1..], e);
    }
  }

  lemma {:induction false} EntryOfMember(es: seq<Entry>, k: Text) returns (e: Entry)
    requires DistinctKeys(EntryKey, es) && k in Members(es)
    ensures e in es && e.value != JUndefined && e.key == k
  {
    TailDistinct(es);
    if es[0].key == k && es[0].value != JUndefined {
      e := es[0];
    } else {
      e := EntryOfMember(es[1..], k);
    }
  }

  /** Sorting and dropping undefined members does not change what an object means. */
  lemma SortedMembers(es: seq<Entry>)
    requires DistinctKeys(EntryKey, es)
    ensures DistinctKeys(EntryKey, SortedEntries(es)) && Members(SortedEntries(es)) == Members(es)
  {
    var sorted := SortedEntries(es);
    SortedIsDistinct(sorted);
    forall k | k in Members(es)
      ensures k in Members(sorted) && Members(sorted)[k] == Members(es)[k]
    {
      var e := EntryOfMember(es, k);
      MemberOfEntry(es, e);
      MemberOfEntry(sorted, e);
    }
    forall k | k in Members(sorted)
      ensures k in Members(es)
    {
      var e := EntryOfMember(sorted, k);
      MemberOfEntry(es, e);
    }
    assert Members(sorted) == Members(es);
  }

  lemma SortedIsDistinct(sorted: seq<Entry>)
    requires AscendingBy(EntryKey, sorted)
    ensures DistinctKeys(EntryKey, sorted)
  {
    forall i, j | 0 <= i < j < |sorted|
      ensures EntryKey(sorted[i]) != EntryKey(sorted[j])
    {
      LessIrreflexive(EntryKey(sorted[i]));
    }
  }

  // -------------------------------------------- equal meaning prints the same

  lemma {:induction false} SameMeaningSameText(a: Json, b: Json)
    requires WellFormed(a) && WellFormed(b)
    requires Meaning(a) == Meaning(b)
    ensures Canonicalise(a) == Canonicalise(b)
    decreases a, 1
  {
    match a
    case JArray(xs) => SameItemsSameText(xs, b.items);
    case JObject(xs) => SameMembersSameText(xs, b.entries);
    case _ =>
  }

  lemma {:induction false} SameItemsSameText(xs: seq<Json>, ys: seq<Json>)
    requires WellFormed(JArray(xs)) && WellFormed(JArray(ys))
    requires Meaning(JArray(xs)) == Meaning(JArray(ys))
    ensures Canonicalise(JArray(xs)) == Canonicalise(JArray(ys))
    decreases JArray(xs), 0
  {
    var a, b := JArray(xs), JArray(ys);
    assert |Meaning(a).items| == |xs| && |Meaning(b).items| == |ys|;
    forall i | 0 <= i < |xs|
      ensures Canonicalise(xs[i]) == Canonicalise(ys[i])
    {
      assert Meaning(a).items[i] == Meaning(xs[i]) && Meaning(b).items[i] == Meaning(ys[i]);
      SameMeaningSameText(xs[i], ys[i]);
    }
    assert ItemParts(xs) == ItemParts(ys);
  }

  lemma {:induction false} SameMembersSameText(xs: seq<Entry>, ys: seq<Entry>)
    requires WellFormed(JObject(xs)) && WellFormed(JObject(ys))
    requires Meaning(JObject(xs)) == Meaning(JObject(ys))
    ensures Canonicalise(JObject(xs)) == Canonicalise(JObject(ys))
    decreases JObject(xs), 0
  {
    ObjectText(xs);
    ObjectText(ys);
    SortedMembers(xs);
    SortedMembers(ys);
    var s, t := SortedEntries(xs), SortedEntries(ys);
    assert forall e :: e in s ==> e.value != JUndefined;
    assert forall e :: e in t ==> e.value != JUndefined;
    SameKeys(s, t);
    forall i | 0 <= i < |s|
      ensures Canonicalise(s[i].value) == Canonicalise(t[i].value)
    {
      assert s[i] in xs;
      MemberOfEntry(s, s[i]);
      MemberOfEntry(t, t[i]);
      SameMeaningSameText(s[i].value, t[i].value);
    }
    assert EntryParts(s) == EntryParts(t);
  }

  function Keys(es: seq<Entry>): (keys: seq<Text>)
    ensures |keys| == |es| && forall i :: 0 <= i < |es| ==> keys[i] == es[i].key
  {
    seq(|es|, i requires 0 <= i < |es| => es[i].key)
  }

  /** Sorted entry lists with the same members list the same keys. */
  lemma SameKeys(s: seq<Entry>, t: seq<Entry>)
    requires AscendingBy(EntryKey, s) && AscendingBy(EntryKey, t)
    requires forall e :: e in s ==> e.value != JUndefined
    requires forall e :: e in t ==> e.value != JUndefined
    requires Members(s) == Members(t)
    ensures |s| == |t| && forall i :: 0 <= i < |s| ==> s[i].key == t[i].key
  {
    KeysCarryOver(s, t);
    KeysCarryOver(t, s);
    assert Ascending(Keys(s)) by {
      assert forall i :: 0 <= i < |s| ==> EntryKey(s[i]) == Keys(s)[i];
    }
    assert Ascending(Keys(t)) by {
      assert forall i :: 0 <= i < |t| ==> EntryKey(t[i]) == Keys(t)[i];
    }
    AscendingUnique(Keys(s), Keys(t));
    assert forall i :: 0 <= i < |s| ==> Keys(s)[i] == Keys(t)[i];
  }

  lemma KeysCarryOver(s: seq<Entry>, t: seq<Entry>)
    requires AscendingBy(EntryKey, s) && AscendingBy(EntryKey, t)
    requires forall e :: e in s ==> e.value != JUndefined
    requires Members(s) == Members(t)
    ensures forall k :: k in Keys(s) ==> k in Keys(t)
  {
    SortedIsDistinct(s);
    SortedIsDistinct(t);
    forall k | k in Keys(s)
      ensures k in Keys(t)
    {
      var i :| 0 <= i < |s| && Keys(s)[i] == k;
      assert s[i] in s;
      MemberOfEntry(s, s[i]);
      var e := EntryOfMember(t, k);
      var j :| 0 <= j < |t| && t[j] == e;
      assert Keys(t)[j] == k;
    }
  }

  // ------------------------------------------------- the text reads as the value

  /** What may come right after a printed value: nothing, a comma or a closing bracket. */
  ghost predicate Follows(x: Text) {
    x == [] || x[0] == COMMA || x[0] == CLOSE_BRACKET || x[0] == CLOSE_BRACE
  }

  lemma Reassociate(p: Text, q: Text, r: Text)
    ensures (p + q) + r == p + (q + r)
  {
  }

  lemma HexDigits(u: CodeUnit)
    ensures u == u / 4096 * 4096 + u / 256 % 16 * 256 + u / 16 % 16 * 16 + u % 16
  {
    assert u / 256 == u / 4096 * 16 + u / 256 % 16;
    assert u / 16 == u / 256 * 16 + u / 16 % 16;
    assert u == u / 16 * 16 + u % 16;
  }

  lemma ReadsHex(u: CodeUnit, x: Text)
    ensures ReadHex(Hex4(u) + x) == Got(u, x)
  {
    HexDigits(u);
    var t := Hex4(u) + x;
    assert t[..4] == Hex4(u) && t[4..] == x;
    assert t[0] == Hex4(u)[0] && t[1] == Hex4(u)[1] && t[2] == Hex4(u)[2] && t[3] == Hex4(u)[3];
  }

  lemma ReadsUnit(u: CodeUnit, x: Text)
    ensures (EscapeUnit(u) + x)[0] != QUOTE
    ensures ReadCharacter(EscapeUnit(u) + x) == Got([u], x)
  {
    hide ReadHex, Hex4;
    var t := EscapeUnit(u) + x;
    assert t[0] == EscapeUnit(u)[0];
    if |EscapeUnit(u)| == 1 {
      assert t[1..] == x;
    } else if t[1] == 117 {
      assert t == [92, 117] + (Hex4(u) + x);
      assert t[2..] == Hex4(u) + x;
      ReadsHex(u, x);
    } else {
      assert t[2..] == x;
    }
  }

  /** An escaped string reads as the string, whatever comes behind its closing quote. */
  lemma {:induction false} ReadsString(s: Text, x: Text)
    ensures ReadString(Escape(s) + ([QUOTE] + x)) == Got(s, x)
    decreases |s|
  {
    var end := [QUOTE] + x;
    var t := Escape(s) + end;
    if s == [] {
      assert t == end && end[1..] == x;
    } else if StartsWithPair(s) {
      ReadsString(s[2..], x);
      Reassociate([s[0], s[1]], Escape(s[2..]), end);
      assert t[..2] == [s[0], s[1]] && t[2..] == Escape(s[2..]) + end;
      assert s == s[..2] + s[2..] && s[..2] == [s[0], s[1]];
      assert ReadCharacter(t) == Got(s[..2], t[2..]);
    } else {
      ReadsString(s[1..], x);
      Reassociate(EscapeUnit(s[0]), Escape(s[1..]), end);
      ReadsUnit(s[0], Escape(s[1..]) + end);
      assert s == [s[0]] + s[1..];
    }
  }

  /** The closing quote of an escaped string is the first bare one. */
  lemma StringsAreDelimited(s: Text, t: Text, x: Text, y: Text)
    requires Escape(s) + ([QUOTE] + x) == Escape(t) + ([QUOTE] + y)
    ensures s == t && x == y
  {
    ReadsString(s, x);
    ReadsString(t, y);
  }

  /** What comes after the first part of a printed list. */
  ghost function AfterFirst(p: seq<Text>, rest: Text): Text
    requires p != []
  {
    if |p| == 1 then rest else [COMMA] + (Join(p[1..]) + rest)
  }

  lemma JoinStep(p: seq<Text>, rest: Text)
    requires p != []
    ensures Join(p) + rest == p[0] + AfterFirst(p, rest)
  {
    if |p| > 1 {
      Reassociate(p[0] + [COMMA], Join(p[1..]), rest);
      Reassociate(p[0], [COMMA], Join(p[1..]) + rest);
    }
  }

  /** The first unit of a printed value tells which kind of value it is. */
  lemma FirstUnit(v: Json)
    requires WellFormed(v)
    ensures var f := Canonicalise(v)[0];
            && (v.JUndefined? || v.JNull? <==> f == 110)
            && (v.JBool? <==> f == 116 || f == 102)
            && (v.JNumber? <==> IsDigit(f) || f == 45)
            && (v.JString? <==> f == QUOTE)
            && (v.JArray? <==> f == OPEN_BRACKET)
            && (v.JObject? <==> f == OPEN_BRACE)
  {
    if v.JNumber? {
      NumberUnits(v.n);
    }
  }

  lemma ReadsWord(v: Json, x: Text)
    requires v.JUndefined? || v.JNull? || v.JBool?
    ensures ReadValue(Canonicalise(v) + x) == Got(Meaning(v), x)
  {
    hide ReadString, ReadNumber, ReadItems, ReadMembers;
    var word := Canonicalise(v);
    var t := word + x;
    assert t[..|word|] == word && t[|word|..] == x && t[0] == word[0];
  }

  /** The canonical text of a value, with anything that may follow behind it, is read as what the value means. */
  lemma {:induction false} ReadsAsMeant(v: Json, x: Text)
    requires WellFormed(v) && Follows(x)
    ensures ReadValue(Canonicalise(v) + x) == Got(Meaning(v), x)
    decreases v, 1
  {
    hide ReadValue, ReadString, ReadNumber, Escape, Join;
    match v
    case JUndefined => ReadsWord(v, x);
    case JNull => ReadsWord(v, x);
    case JBool(_) => ReadsWord(v, x);
    case JNumber(n) =>
      FirstUnit(v);
      ReadsNumber(n, x);
      ReadByFirstUnit(n + x);
    case JString(s) =>
      Bracketed(QUOTE, Escape(s), QUOTE, x);
      ReadsString(s, x);
      ReadByFirstUnit(Quoted(s) + x);
    case JArray(items) => ReadsArray(items, x);
    case JObject(entries) => ReadsObject(entries, x);
  }

  lemma Bracketed(open: CodeUnit, body: Text, close: CodeUnit, x: Text)
    ensures [open] + body + [close] + x == [open] + (body + ([close] + x))
    ensures ([open] + body + [close] + x)[1..] == body + ([close] + x)
  {
    Reassociate([open] + body, [close], x);
    Reassociate([open], body, [close] + x);
  }

  lemma {:induction false} ReadsArray(items: seq<Json>, x: Text)
    requires WellFormed(JArray(items)) && Follows(x)
    ensures ReadValue(Canonicalise(JArray(items)) + x) == Got(Meaning(JArray(items)), x)
    decreases JArray(items), 0
  {
    hide ReadValue, ReadItems, Follows, Join;
    var p := ItemParts(items);
    var t := Canonicalise(JArray(items)) + x;
    assert t == [OPEN_BRACKET] + Join(p) + [CLOSE_BRACKET] + x;
    Bracketed(OPEN_BRACKET, Join(p), CLOSE_BRACKET, x);
    ReadByBracket(t);
    if items == [] {
      NothingToJoin(CLOSE_BRACKET, x);
      assert Meaning(JArray(items)).items == [];
      assert t[2..] == t[1..][1..];
    } else {
      ReadsItems(items, 0, x);
      assert p[0..] == p;
      FirstItem(items, x);
      assert ReadItems(t[1..]).value == Meaning(JArray(items)).items;
    }
  }

  lemma NothingToJoin(close: CodeUnit, x: Text)
    ensures Join([]) + ([close] + x) == [close] + x && ([close] + x)[1..] == x
  {
  }

  lemma FirstItem(items: seq<Json>, x: Text)
    requires WellFormed(JArray(items)) && items != []
    ensures (Join(ItemParts(items)) + ([CLOSE_BRACKET] + x))[0] != CLOSE_BRACKET
  {
    JoinStep(ItemParts(items), [CLOSE_BRACKET] + x);
    FirstUnit(items[0]);
  }

  lemma {:induction false} ReadsItems(items: seq<Json>, k: nat, x: Text)
    requires WellFormed(JArray(items)) && k < |items|
    ensures var r := ReadItems(Join(ItemParts(items)[k..]) + ([CLOSE_BRACKET] + x));
            r.Got? && r.rest == x && |r.value| == |items| - k && forall i :: 0 <= i < |r.value| ==> r.value[i] == Meaning(items[k + i])
    decreases JArray(items), 0, |items| - k
  {
    hide ReadValue, ReadItems, Canonicalise, Meaning, Join;
    var p, end := ItemParts(items)[k..], [CLOSE_BRACKET] + x;
    JoinStep(p, end);
    assert p[0] == Canonicalise(items[k]);
    var after := AfterFirst(p, end);
    AfterPart(p, CLOSE_BRACKET, x);
    ReadsAsMeant(items[k], after);
    ReadItem(Join(p) + end, Meaning(items[k]), after);
    if k + 1 < |items| {
      ReadsItems(items, k + 1, x);
      assert p[1..] == ItemParts(items)[k + 1..];
    }
  }

  /** Behind a part comes a comma and the rest of the list, or the closing bracket. */
  lemma AfterPart(p: seq<Text>, close: CodeUnit, x: Text)
    requires p != [] && (close == CLOSE_BRACKET || close == CLOSE_BRACE)
    ensures var after := AfterFirst(p, [close] + x);
            && Follows(after) && after != []
            && (|p| == 1 ==> after[0] == close && after[1..] == x)
            && (|p| > 1 ==> after[0] == COMMA && after[1..] == Join(p[1..]) + ([close] + x))
  {
  }

  lemma {:induction false} ReadsObject(es: seq<Entry>, x: Text)
    requires WellFormed(JObject(es)) && Follows(x)
    ensures ReadValue(Canonicalise(JObject(es)) + x) == Got(Meaning(JObject(es)), x)
    decreases JObject(es), 0
  {
    hide ReadValue, ReadMembers, Canonicalise, Follows, Join, Members;
    ObjectText(es);
    SortedMembers(es);
    var sorted := SortedEntries(es);
    var p := EntryParts(sorted);
    var t := Canonicalise(JObject(es)) + x;
    Bracketed(OPEN_BRACE, Join(p), CLOSE_BRACE, x);
    ReadByBrace(t);
    if sorted == [] {
      NothingToJoin(CLOSE_BRACE, x);
      assert t[2..] == t[1..][1..];
      NoMembers();
    } else {
      ReadsMembers(es, 0, x);
      assert p[0..] == p && sorted[0..] == sorted;
      FirstMember(sorted, x);
      GatheredMembers(ReadMembers(t[1..], None).value, sorted);
    }
  }

  lemma NoMembers()
    ensures Members([]) == map[]
  {
  }

  lemma FirstMember(es: seq<Entry>, x: Text)
    requires es != [] && forall i :: 0 <= i < |es| ==> WellFormed(es[i].value)
    ensures (Join(EntryParts(es)) + ([CLOSE_BRACE] + x))[0] == QUOTE
  {
    JoinStep(EntryParts(es), [CLOSE_BRACE] + x);
  }

  /** The members read are the entries sorted, name by name. */
  ghost predicate ReadAs(ms: seq<Member>, es: seq<Entry>) {
    |ms| == |es| && forall i :: 0 <= i < |ms| ==> ms[i] == Member(es[i].key, Meaning(es[i].value))
  }

  lemma {:induction false} GatheredMembers(ms: seq<Member>, es: seq<Entry>)
    requires ReadAs(ms, es) && forall e :: e in es ==> e.value != JUndefined
    ensures Gather(ms) == Members(es)
  {
    if ms != [] {
      assert es[0] in es;
      GatheredMembers(ms[1..], es[1..]);
    }
  }

  lemma {:induction false} ReadsMembers(es: seq<Entry>, k: nat, x: Text)
    requires WellFormed(JObject(es)) && k < |SortedEntries(es)|
    requires forall i :: 0 <= i < |SortedEntries(es)| ==> WellFormed(SortedEntries(es)[i].value)
    ensures var sorted := SortedEntries(es);
            var r := ReadMembers(Join(EntryParts(sorted)[k..]) + ([CLOSE_BRACE] + x), if k == 0 then None else Some(sorted[k - 1].key));
            r.Got? && r.rest == x && ReadAs(r.value, sorted[k..])
    decreases JObject(es), 0, |SortedEntries(es)| - k, 1
  {
    hide ReadString, ReadValue, ReadMembers, Escape, Canonicalise, Meaning, Join, Quoted, SortedEntries, AfterFirst, Less;
    var sorted := SortedEntries(es);
    var p := EntryParts(sorted)[k..];
    var last := if k == 0 then None else Some(sorted[k - 1].key);
    AfterPart(p, CLOSE_BRACE, x);
    ReadsOneMember(es, k, last, x);
    if k + 1 < |sorted| {
      ReadsMembers(es, k + 1, x);
      assert p[1..] == EntryParts(sorted)[k + 1..] && sorted[k..][1..] == sorted[k + 1..];
    }
  }

  /** The member at the front is read as its entry, and reading goes on behind it. */
  lemma ReadsOneMember(es: seq<Entry>, k: nat, last: Option<Text>, x: Text)
    requires WellFormed(JObject(es)) && k < |SortedEntries(es)|
    requires forall i :: 0 <= i < |SortedEntries(es)| ==> WellFormed(SortedEntries(es)[i].value)
    requires last == if k == 0 then None else Some(SortedEntries(es)[k - 1].key)
    ensures var (p, e, end) := (EntryParts(SortedEntries(es))[k..], SortedEntries(es)[k], [CLOSE_BRACE] + x);
            var (t, rest) := (Join(p) + end, AfterFirst(p, end));
            && (rest != [] && rest[0] == CLOSE_BRACE ==> ReadMembers(t, last) == Got([Member(e.key, Meaning(e.value))], rest[1..]))
            && (rest != [] && rest[0] == COMMA && ReadMembers(rest[1..], Some(e.key)).Got? ==>
                  ReadMembers(t, last) == Got([Member(e.key, Meaning(e.value))] + ReadMembers(rest[1..], Some(e.key)).value,
                                              ReadMembers(rest[1..], Some(e.key)).rest))
    decreases JObject(es), 0, |SortedEntries(es)| - k, 0
  {
    hide ReadString, ReadValue, ReadMembers, Escape, Canonicalise, Meaning, Join, Quoted, AfterFirst, Less;
    var sorted := SortedEntries(es);
    var p, end := EntryParts(sorted)[k..], [CLOSE_BRACE] + x;
    var e := sorted[k];
    assert e in es;
    JoinStep(p, end);
    AfterPart(p, CLOSE_BRACE, x);
    var after := AfterFirst(p, end);
    var text := Canonicalise(e.value);
    EntryLayout(e.key, text, after);
    ReadsString(e.key, [COLON] + (text + after));
    BehindColon(text + after);
    ReadsAsMeant(e.value, after);
    assert k > 0 ==> Less(EntryKey(sorted[k - 1]), EntryKey(sorted[k]));
    ReadMember(Join(p) + end, last, e.key, [COLON] + (text + after), Meaning(e.value), after);
  }

  lemma BehindColon(x: Text)
    ensures ([COLON] + x)[0] == COLON && ([COLON] + x)[1..] == x
  {
  }

  /** How a printed member begins. */
  lemma EntryLayout(k: Text, s: Text, x: Text)
    ensures var t := Quoted(k) + [COLON] + s + x;
            t[0] == QUOTE && t[1..] == Escape(k) + ([QUOTE] + ([COLON] + (s + x)))
  {
    var e := Escape(k);
    calc {
      (([QUOTE] + e + [QUOTE]) + [COLON] + s) + x;
      { Reassociate([QUOTE] + e + [QUOTE] + [COLON], s, x); }
      ([QUOTE] + e + [QUOTE] + [COLON]) + (s + x);
      { Reassociate([QUOTE] + e + [QUOTE], [COLON], s + x); }
      ([QUOTE] + e + [QUOTE]) + ([COLON] + (s + x));
      { Reassociate([QUOTE] + e, [QUOTE], [COLON] + (s + x)); }
      ([QUOTE] + e) + ([QUOTE] + ([COLON] + (s + x)));
      { Reassociate([QUOTE], e, [QUOTE] + ([COLON] + (s + x))); }
      [QUOTE] + (e + ([QUOTE] + ([COLON] + (s + x))));
    }
  }

  // ------------------------------------------------------------- the theorems

  /** The printed text is JSON that says what the value means. */
  lemma CanonicalTextReadsAsMeant(v: Json)
    requires WellFormed(v)
    ensures Read(Canonicalise(v)) == Some(Meaning(v))
  {
    ReadsAsMeant(v, []);
    assert Canonicalise(v) + [] == Canonicalise(v);
  }

  /** The text determines the value, whatever text comes behind it. */
  lemma ReadBack(a: Json, b: Json, x: Text, y: Text)
    requires WellFormed(a) && WellFormed(b)
    requires Follows(x) && Follows(y)
    requires Canonicalise(a) + x == Canonicalise(b) + y
    ensures Meaning(a) == Meaning(b) && Canonicalise(a) == Canonicalise(b)
  {
    ReadsAsMeant(a, x);
    ReadsAsMeant(b, y);
    SameMeaningSameText(a, b);
  }

  /** Two values hash from the same text exactly when they mean the same. */
  lemma CanonicalTextIsMeaning(a: Json, b: Json)
    requires WellFormed(a) && WellFormed(b)
    ensures Canonicalise(a) == Canonicalise(b) <==> Meaning(a) == Meaning(b)
  {
    CanonicalTextReadsAsMeant(a);
    CanonicalTextReadsAsMeant(b);
    if Meaning(a) == Meaning(b) {
      SameMeaningSameText(a, b);
    }
  }

  // ------------------------------------------------------- no other way to write a string

  lemma HexIsOnly(t: Text)
    requires ReadHex(t).Got?
    ensures t == Hex4(ReadHex(t).value) + ReadHex(t).rest
  {
    var u := ReadHex(t).value;
    DigitOfValue(t[0]);
    DigitOfValue(t[1]);
    DigitOfValue(t[2]);
    DigitOfValue(t[3]);
    FourDigits(HexValue(t[0]).value, HexValue(t[1]).value, HexValue(t[2]).value, HexValue(t[3]).value, u);
    assert t == t[..4] + t[4..];
    assert t[..4] == [t[0], t[1], t[2], t[3]];
  }

  lemma DigitOfValue(u: CodeUnit)
    requires HexValue(u).Some?
    ensures 0 <= HexValue(u).value < 16 && HexDigit(HexValue(u).value) == u
  {
  }

  lemma FourDigits(a: int, b: int, c: int, d: int, u: int)
    requires 0 <= a < 16 && 0 <= b < 16 && 0 <= c < 16 && 0 <= d < 16
    requires u == a * 4096 + b * 256 + c * 16 + d
    ensures 0 <= u < 65536 && Hex4(u) == [HexDigit(a), HexDigit(b), HexDigit(c), HexDigit(d)]
  {
    hide HexDigit;
    assert u / 4096 == a && u / 256 == a * 16 + b && u / 16 == a * 256 + b * 16 + c && u % 16 == d;
  }

  /** Of all texts that read as one unit, the escape is the shortest, and the only one that short. */
  lemma CharacterIsShortest(t: Text)
    requires t != [] && ReadCharacter(t).Got?
    ensures var (c, rest) := (ReadCharacter(t).value, ReadCharacter(t).rest);
            && (|c| == 1 || (StartsWithPair(c) && |c| == 2))
            && (|c| == 2 ==> t == c + rest)
            && (|c| == 1 ==> |EscapeUnit(c[0])| + |rest| <= |t| && (|EscapeUnit(c[0])| + |rest| == |t| ==> t == EscapeUnit(c[0]) + rest))
            && (|c| == 1 && (IsHigh(c[0]) || IsLow(c[0])) ==> |t| == 6 + |rest|)
  {
    hide Hex4;
    var c, rest := ReadCharacter(t).value, ReadCharacter(t).rest;
    if t[0] == 92 && t[1] == 117 {
      HexIsOnly(t[2..]);
      assert t == [92, 117] + t[2..];
      assert |Hex4(c[0])| == 4;
      assert t == ([92, 117] + Hex4(c[0])) + rest;
    } else if t[0] == 92 {
      assert t == [92, t[1]] + rest;
    } else if |c| == 1 {
      assert t == [t[0]] + rest;
    } else {
      assert t == t[..2] + rest;
    }
  }

  lemma EscapeOne(u: CodeUnit, s: Text)
    ensures |Escape([u] + s)| <= |EscapeUnit(u)| + |Escape(s)|
    ensures !StartsWithPair([u] + s) ==> Escape([u] + s) == EscapeUnit(u) + Escape(s)
    ensures StartsWithPair([u] + s) ==> |Escape([u] + s)| < 6 + |Escape(s)|
  {
    assert ([u] + s)[1..] == s;
    if StartsWithPair([u] + s) {
      assert ([u] + s)[2..] == s[1..];
      assert !StartsWithPair(s);
    }
  }

  /**
   Of all texts that read as `s`, `JSON.stringify` writes the shortest, and no other is as short: units stand for
   themselves where they may, and otherwise the two-character escapes come before `\u`.
   */
  lemma {:induction false} EscapeIsShortest(t: Text)
    requires ReadString(t).Got?
    ensures var (s, rest) := (ReadString(t).value, ReadString(t).rest);
            && |Escape(s)| + 1 + |rest| <= |t|
            && (|Escape(s)| + 1 + |rest| == |t| ==> t == Escape(s) + ([QUOTE] + rest))
    decreases |t|
  {
    hide ReadCharacter, Escape, EscapeUnit, StartsWithPair;
    if t[0] == QUOTE {
      assert t == [QUOTE] + t[1..];
      NothingToEscape();
    } else {
      var c, after := ReadCharacter(t).value, ReadCharacter(t).rest;
      CharacterIsShortest(t);
      EscapeIsShortest(after);
      if |c| == 2 {
        ShortestWithPair(c, t, ReadString(after).value, after, ReadString(after).rest);
      } else {
        assert c == [c[0]];
        ShortestWithUnit(c[0], t, ReadString(after).value, after, ReadString(after).rest);
      }
    }
  }

  lemma NothingToEscape()
    ensures Escape([]) == []
  {
  }

  /** The escape of `s` and the closing quote are no longer than the text before `rest`, and as long only if they are that text. */
  ghost predicate NoLonger(s: Text, t: Text, rest: Text) {
    && |Escape(s)| + 1 + |rest| <= |t|
    && (|Escape(s)| + 1 + |rest| == |t| ==> t == Escape(s) + ([QUOTE] + rest))
  }

  lemma ShortestWithPair(c: Text, t: Text, tail: Text, after: Text, rest: Text)
    requires |c| == 2 && StartsWithPair(c) && t == c + after && NoLonger(tail, after, rest)
    ensures NoLonger(c + tail, t, rest)
  {
    assert (c + tail)[2..] == tail && (c + tail)[..2] == c;
    Reassociate(c, Escape(tail), [QUOTE] + rest);
  }

  lemma ShortestWithUnit(u: CodeUnit, t: Text, tail: Text, after: Text, rest: Text)
    requires |EscapeUnit(u)| + |after| <= |t| && (|EscapeUnit(u)| + |after| == |t| ==> t == EscapeUnit(u) + after)
    requires IsHigh(u) || IsLow(u) ==> |t| == 6 + |after|
    requires NoLonger(tail, after, rest)
    ensures NoLonger([u] + tail, t, rest)
  {
    hide Escape, EscapeUnit;
    EscapeOne(u, tail);
    Reassociate(EscapeUnit(u), Escape(tail), [QUOTE] + rest);
  }
}
