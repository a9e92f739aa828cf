/**
 JSON text as RFC 8259 reads it, in the profile that hashing needs: no white space between tokens, hex digits in
 lower case, the names of an object in ascending order. Nothing here knows the printer.
 */
module JsonText {
  import opened Wrappers
  import opened JsText

  /** A JSON value: an object is an unordered collection of members. */
  datatype Value =
    | VNull
    | VBool(b: bool)
    | VNumber(n: NumberText)
    | VString(s: Text)
    | VArray(items: seq<Value>)
    | VObject(members: map<Text, Value>)

  /** What was read at the front of a text, and what is left of the text. */
  datatype Reading<+T> = Stuck | Got(value: T, rest: Text)

  // ------------------------------------------------------------------- numbers

  predicate IsDigit(u: int) { 0x30 <= u <= 0x39 }

  /** How many digits the text starts with. */
  function DigitCount(t: Text): (n: nat)
    ensures n <= |t| && forall i :: 0 <= i < n ==> IsDigit(t[i])
  {
    if t == [] || !IsDigit(t[0]) then 0 else 1 + DigitCount(t[1..])
  }

  /** Section 6: an optional minus, an integer without leading zeros, a fraction, an exponent. */
  predicate IsNumber(t: Text) {
    IsUnsigned(if t != [] && t[0] == 0x2D then t[1..] else t)
  }

  predicate IsUnsigned(t: Text) {
    var n := DigitCount(t);
    n > 0 && (t[0] == 0x30 ==> n == 1) && IsFraction(t[n..])
  }

  predicate IsFraction(t: Text) {
    if t != [] && t[0] == 0x2E then DigitCount(t[1..]) > 0 && IsExponent(t[1 + DigitCount(t[1..])..]) else IsExponent(t)
  }

  predicate IsExponent(t: Text) {
    t == [] ||
    ((t[0] == 0x65 || t[0] == 0x45)
     && var u := if |t| > 1 && (t[1] == 0x2B || t[1] == 0x2D) then t[2..] else t[1..];
        u != [] && DigitCount(u) == |u|)
  }

  type NumberText = t: Text | IsNumber(t) witness [0x30]

  /** The units a number is made of: digits, `-`, `+`, `.`, `e`, `E`. */
  predicate IsNumberUnit(u: int) {
    IsDigit(u) || u == 0x2D || u == 0x2B || u == 0x2E || u == 0x65 || u == 0x45
  }

  function NumberLength(t: Text): (n: nat)
    ensures n <= |t|
  {
    if t == [] || !IsNumberUnit(t[0]) then 0 else 1 + NumberLength(t[1..])
  }

  function ReadNumber(t: Text): (r: Reading<NumberText>)
    ensures r.Got? ==> |r.rest| < |t|
  {
    var n := NumberLength(t);
    assert n == 0 ==> t[..n] == [];
    if IsNumber(t[..n]) then var read: NumberText := t[..n]; Got(read, t[n..]) else Stuck
  }

  lemma ExponentUnits(t: Text)
    requires IsExponent(t)
    ensures forall i :: 0 <= i < |t| ==> IsNumberUnit(t[i])
  {
    if t != [] {
      var k := if |t| > 1 && (t[1] == 0x2B || t[1] == 0x2D) then 2 else 1;
      assert forall i :: k <= i < |t| ==> t[i] == t[k..][i - k];
    }
  }

  lemma FractionUnits(t: Text)
    requires IsFraction(t)
    ensures forall i :: 0 <= i < |t| ==> IsNumberUnit(t[i])
  {
    if t != [] && t[0] == 0x2E {
      var k := 1 + DigitCount(t[1..]);
      ExponentUnits(t[k..]);
      assert forall i :: 1 <= i < k ==> t[i] == t[1..][i - 1];
      assert forall i :: k <= i < |t| ==> t[i] == t[k..][i - k];
    } else {
      ExponentUnits(t);
    }
  }

  lemma UnsignedUnits(t: Text)
    requires IsUnsigned(t)
    ensures t != [] && IsDigit(t[0]) && forall i :: 0 <= i < |t| ==> IsNumberUnit(t[i])
  {
    hide IsFraction;
    var n := DigitCount(t);
    FractionUnits(t[n..]);
    assert forall i :: n <= i < |t| ==> t[i] == t[n..][i - n];
  }

  lemma NumberUnits(t: Text)
    requires IsNumber(t)
    ensures t != [] && (IsDigit(t[0]) || t[0] == 0x2D)
    ensures forall i :: 0 <= i < |t| ==> IsNumberUnit(t[i])
  {
    hide IsUnsigned;
    if t != [] && t[0] == 0x2D {
      UnsignedUnits(t[1..]);
      assert forall i :: 1 <= i < |t| ==> t[i] == t[1..][i - 1];
    } else {
      UnsignedUnits(t);
    }
  }

  lemma {:induction false} NumberLengthIs(t: Text, n: nat)
    requires n <= |t| && forall i :: 0 <= i < n ==> IsNumberUnit(t[i])
    requires n < |t| ==> !IsNumberUnit(t[n])
    ensures NumberLength(t) == n
    decreases n
  {
    if n > 0 {
      NumberLengthIs(t[1..], n - 1);
    }
  }

  lemma ReadsNumber(n: NumberText, x: Text)
    requires x != [] ==> !IsNumberUnit(x[0])
    ensures ReadNumber(n + x) == Got(n, x)
  {
    NumberUnits(n);
    NumberLengthIs(n + x, |n|);
    assert (n + x)[..|n|] == n && (n + x)[|n|..] == x;
  }

  // ------------------------------------------------------------------- strings

  function HexValue(u: CodeUnit): Option<int> {
    if IsDigit(u) then Some(u - 0x30) else if 0x61 <= u <= 0x66 then Some(u - 0x61 + 10) else None
  }

  /** The four digits of `\u`. */
  function ReadHex(t: Text): (r: Reading<CodeUnit>)
    ensures r.Got? ==> |t| >= 4 && r.rest == t[4..]
  {
    if |t| < 4 then Stuck
    else
      match (HexValue(t[0]), HexValue(t[1]), HexValue(t[2]), HexValue(t[3]))
      case (Some(a), Some(b), Some(c), Some(d)) =>
        var u := a * 0x1000 + b * 0x100 + c * 0x10 + d;
        if 0 <= u < 0x10000 then Got(u, t[4..]) else Stuck
      case _ => Stuck
  }

  /** Section 7: the unit a two-character escape stands for. */
  function Unescaped(u: CodeUnit): Option<CodeUnit> {
    if u == 0x22 || u == 0x5C || u == 0x2F then Some(u)
    else if u == 0x62 then Some(0x08)
    else if u == 0x66 then Some(0x0C)
    else if u == 0x6E then Some(0x0A)
    else if u == 0x72 then Some(0x0D)
    else if u == 0x74 then Some(0x09)
    else None
  }

  /** One character: an escape, a surrogate pair or a unit that stands for itself. A bare half of a pair is no text. */
  function ReadCharacter(t: Text): (r: Reading<Text>)
    requires t != []
    ensures r.Got? ==> |r.rest| < |t|
  {
    if t[0] == 0x5C then
      if |t| < 2 then Stuck
      else if t[1] == 0x75 then
        match ReadHex(t[2..])
        case Stuck => Stuck
        case Got(u, rest) => Got([u], rest)
      else
        match Unescaped(t[1])
        case None => Stuck
        case Some(u) => Got([u], t[2..])
    else if t[0] < 0x20 || t[0] == 0x22 then Stuck
    else if IsHigh(t[0]) then if |t| > 1 && IsLow(t[1]) then Got(t[..2], t[2..]) else Stuck
    else if IsLow(t[0]) then Stuck
    else Got([t[0]], t[1..])
  }

  /** A string from behind its opening quote. */
  function ReadString(t: Text): (r: Reading<Text>)
    ensures r.Got? ==> |r.rest| < |t|
    decreases |t|
  {
    if t == [] then Stuck
    else if t[0] == 0x22 then Got([], t[1..])
    else
      match ReadCharacter(t)
      case Stuck => Stuck
      case Got(c, rest) =>
        match ReadString(rest)
        case Stuck => Stuck
        case Got(s, end) => Got(c + s, end)
  }

  // -------------------------------------------------------------------- values

  datatype Member = Member(name: Text, value: Value)

  function Gather(ms: seq<Member>): map<Text, Value> {
    if ms == [] then map[] else Gather(ms[1..])[ms[0].name := ms[0].value]
  }

  /** One of the three literal names. */
  function ReadWord(t: Text, word: Text, v: Value): (r: Reading<Value>)
    requires word != []
    ensures r.Got? ==> |r.rest| < |t|
  {
    if |t| >= |word| && t[..|word|] == word then Got(v, t[|word|..]) else Stuck
  }

  /** Sections 3 to 7: a value at the front of the text. */
  function ReadValue(t: Text): (r: Reading<Value>)
    ensures r.Got? ==> |r.rest| < |t|
    decreases |t|, 0
  {
    if t == [] then Stuck
    else if t[0] == 0x6E then ReadWord(t, [0x6E, 0x75, 0x6C, 0x6C], VNull)
    else if t[0] == 0x74 then ReadWord(t, [0x74, 0x72, 0x75, 0x65], VBool(true))
    else if t[0] == 0x66 then ReadWord(t, [0x66, 0x61, 0x6C, 0x73, 0x65], VBool(false))
    else if t[0] == 0x22 then
      match ReadString(t[1..])
      case Stuck => Stuck
      case Got(s, rest) => Got(VString(s), rest)
    else if t[0] == 0x5B then
      if |t| > 1 && t[1] == 0x5D then Got(VArray([]), t[2..])
      else
        match ReadItems(t[1..])
        case Stuck => Stuck
        case Got(items, rest) => Got(VArray(items), rest)
    else if t[0] == 0x7B then
      if |t| > 1 && t[1] == 0x7D then Got(VObject(map[]), t[2..])
      else
        match ReadMembers(t[1..], None)
        case Stuck => Stuck
        case Got(members, rest) => Got(VObject(Gather(members)), rest)
    else
      match ReadNumber(t)
      case Stuck => Stuck
      case Got(n, rest) => Got(VNumber(n), rest)
  }

  /** The values of an array up to its closing bracket. */
  function ReadItems(t: Text): (r: Reading<seq<Value>>)
    ensures r.Got? ==> |r.rest| < |t|
    decreases |t|, 1
  {
    match ReadValue(t)
    case Stuck => Stuck
    case Got(v, rest) =>
      if rest == [] then Stuck
      else if rest[0] == 0x5D then Got([v], rest[1..])
      else if rest[0] == 0x2C then
        match ReadItems(rest[1..])
        case Stuck => Stuck
        case Got(vs, end) => Got([v] + vs, end)
      else Stuck
  }

  /** The members of an object up to its closing brace; each name comes after the one before. */
  function ReadMembers(t: Text, last: Option<Text>): (r: Reading<seq<Member>>)
    ensures r.Got? ==> |r.rest| < |t|
    decreases |t|, 1
  {
    if t == [] || t[0] != 0x22 then Stuck
    else
      match ReadString(t[1..])
      case Stuck => Stuck
      case Got(name, after) =>
        if after == [] || after[0] != 0x3A || (last.Some? && !Less(last.value, name)) then Stuck
        else
          match ReadValue(after[1..])
          case Stuck => Stuck
          case Got(v, rest) =>
            if rest == [] then Stuck
            else if rest[0] == 0x7D then Got([Member(name, v)], rest[1..])
            else if rest[0] == 0x2C then
              match ReadMembers(rest[1..], Some(name))
              case Stuck => Stuck
              case Got(ms, end) => Got([Member(name, v)] + ms, end)
            else Stuck
  }

  // ------------------------------------------------- one step of the reader at a time

  /** A text that begins with anything but a letter. */
  lemma ReadByFirstUnit(t: Text)
    requires t != []
    ensures t[0] == 0x22 && ReadString(t[1..]).Got? ==> ReadValue(t) == Got(VString(ReadString(t[1..]).value), ReadString(t[1..]).rest)
    ensures IsDigit(t[0]) || t[0] == 0x2D ==>
              ReadValue(t) == match ReadNumber(t) case Stuck => Stuck case Got(n, rest) => Got(VNumber(n), rest)
  {
    hide ReadString, ReadNumber, ReadItems, ReadMembers, ReadWord;
  }

  lemma ReadByBracket(t: Text)
    requires |t| > 1 && t[0] == 0x5B
    ensures t[1] == 0x5D ==> ReadValue(t) == Got(VArray([]), t[2..])
    ensures t[1] != 0x5D && ReadItems(t[1..]).Got? ==> ReadValue(t) == Got(VArray(ReadItems(t[1..]).value), ReadItems(t[1..]).rest)
  {
    hide ReadString, ReadNumber, ReadItems, ReadMembers, ReadWord;
  }

  lemma ReadByBrace(t: Text)
    requires |t| > 1 && t[0] == 0x7B
    ensures t[1] == 0x7D ==> ReadValue(t) == Got(VObject(map[]), t[2..])
    ensures t[1] != 0x7D && ReadMembers(t[1..], None).Got? ==>
              ReadValue(t) == Got(VObject(Gather(ReadMembers(t[1..], None).value)), ReadMembers(t[1..], None).rest)
  {
    hide ReadString, ReadNumber, ReadItems, ReadMembers, ReadWord, Gather;
  }

  lemma ReadItem(t: Text, v: Value, rest: Text)
    requires ReadValue(t) == Got(v, rest) && rest != []
    ensures rest[0] == 0x5D ==> ReadItems(t) == Got([v], rest[1..])
    ensures rest[0] == 0x2C && ReadItems(rest[1..]).Got? ==>
              ReadItems(t) == Got([v] + ReadItems(rest[1..]).value, ReadItems(rest[1..]).rest)
  {
    hide ReadValue;
  }

  lemma ReadMember(t: Text, last: Option<Text>, name: Text, after: Text, v: Value, rest: Text)
    requires t != [] && t[0] == 0x22 && ReadString(t[1..]) == Got(name, after) && (last.Some? ==> Less(last.value, name))
    requires after != [] && after[0] == 0x3A && ReadValue(after[1..]) == Got(v, rest) && rest != []
    ensures rest[0] == 0x7D ==> ReadMembers(t, last) == Got([Member(name, v)], rest[1..])
    ensures rest[0] == 0x2C && ReadMembers(rest[1..], Some(name)).Got? ==>
              ReadMembers(t, last) == Got([Member(name, v)] + ReadMembers(rest[1..], Some(name)).value, ReadMembers(rest[1..], Some(name)).rest)
  {
    hide ReadValue, ReadString, Less;
  }

  /** A whole text is one value and nothing else. */
  function Read(t: Text): Option<Value> {
    match ReadValue(t)
    case Stuck => None
    case Got(v, rest) => if rest == [] then Some(v) else None
  }
}
