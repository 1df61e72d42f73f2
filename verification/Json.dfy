/** Python's json.dumps(value, sort_keys=True, separators=(",", ":")) with its default
    ensure_ascii=True, and a reader for the compact texts of RFC 8259
    (sections 4 objects, 5 arrays, 6 integers, 7 strings) that undoes it. */
module Json {
  import opened Text

  // ------------------------------------------------------------- values

  /** A JSON value as the program holds it; an object lists its members in insertion order. */
  datatype Json =
    | JNull
    | JBool(b: bool)
    | JInt(i: int)
    | JStr(s: string)
    | JArr(items: Items)
    | JObj(members: Members)

  datatype Items = NoItems | Item(head: Json, rest: Items)

  datatype Members = NoMembers | Member(key: string, value: Json, rest: Members)

  /** What a value means to the program: dictionaries are maps, insertion order is gone. */
  datatype Value =
    | VNull
    | VBool(b: bool)
    | VInt(i: int)
    | VStr(s: string)
    | VList(items: seq<Value>)
    | VDict(dict: map<string, Value>)

  function Meaning(j: Json): Value {
    match j
    case JNull => VNull
    case JBool(b) => VBool(b)
    case JInt(i) => VInt(i)
    case JStr(s) => VStr(s)
    case JArr(items) => VList(ItemsMeaning(items))
    case JObj(members) => VDict(MembersMeaning(members))
  }

  function ItemsMeaning(items: Items): seq<Value> {
    match items
    case NoItems => []
    case Item(head, rest) => [Meaning(head)] + ItemsMeaning(rest)
  }

  function MembersMeaning(members: Members): map<string, Value> {
    match members
    case NoMembers => map[]
    case Member(key, value, rest) => MembersMeaning(rest)[key := Meaning(value)]
  }

  function Keys(members: Members): set<string> {
    match members
    case NoMembers => {}
    case Member(key, _, rest) => {key} + Keys(rest)
  }

  /** No object, at any depth, repeats a key: true of every Python dict. */
  predicate Distinct(j: Json) {
    match j
    case JArr(items) => DistinctItems(items)
    case JObj(members) => DistinctMembers(members)
    case _ => true
  }

  predicate DistinctItems(items: Items) {
    items.Item? ==> Distinct(items.head) && DistinctItems(items.rest)
  }

  predicate DistinctMembers(members: Members) {
    members.Member? ==>
      && members.key !in Keys(members.rest)
      && Distinct(members.value)
      && DistinctMembers(members.rest)
  }

  // ------------------------------------------------------- sorted keys

  /** Inserts a member before the first member with a larger key. */
  function Insert(key: string, value: Json, members: Members): Members {
    match members
    case NoMembers => Member(key, value, NoMembers)
    case Member(k, v, rest) =>
      if Less(k, key) then Member(k, v, Insert(key, value, rest))
      else Member(key, value, members)
  }

  /** The value with the members of every object sorted by key. */
  function Sorted(j: Json): Json {
    match j
    case JArr(items) => JArr(SortedItems(items))
    case JObj(members) => JObj(SortedMembers(members))
    case _ => j
  }

  function SortedItems(items: Items): Items {
    match items
    case NoItems => NoItems
    case Item(head, rest) => Item(Sorted(head), SortedItems(rest))
  }

  function SortedMembers(members: Members): Members {
    match members
    case NoMembers => NoMembers
    case Member(key, value, rest) => Insert(key, Sorted(value), SortedMembers(rest))
  }

  // ------------------------------------------------------------ printer

  function HexDigit(d: nat): char
    requires d < 16
  {
    if d < 10 then (d + 48) as char else (d + 87) as char
  }

  function UnicodeEscape(u: nat): string
    requires u < 0x10000
  {
    ['\\', 'u', HexDigit(u / 4096), HexDigit(u / 256 % 16), HexDigit(u / 16 % 16), HexDigit(u % 16)]
  }

  /** One character inside a JSON string; characters outside the basic plane become a surrogate pair. */
  function EscapeChar(c: char): string {
    if c == '\"' then "\\\""
    else if c == '\\' then "\\\\"
    else if c == '\n' then "\\n"
    else if c == '\r' then "\\r"
    else if c == '\t' then "\\t"
    else if c as int == 12 then "\\f"
    else if c as int == 8 then "\\b"
    else if 32 <= c as int < 127 then [c]
    else if c as int < 0x10000 then UnicodeEscape(c as int)
    else
      var n := c as int - 0x10000;
      UnicodeEscape(0xD800 + n / 1024) + UnicodeEscape(0xDC00 + n % 1024)
  }

  function EscapeString(s: string): string {
    if s == "" then "" else EscapeChar(s[0]) + EscapeString(s[1..])
  }

  function Quoted(s: string): string { "\"" + EscapeString(s) + "\"" }

  function EmitInt(i: int): string {
    if i < 0 then "-" + Decimal(-i) else Decimal(i)
  }

  /** Compact text of a value, members in the order they stand. */
  function Emit(j: Json): string {
    match j
    case JNull => "null"
    case JBool(b) => if b then "true" else "false"
    case JInt(i) => EmitInt(i)
    case JStr(s) => Quoted(s)
    case JArr(items) => "[" + EmitItems(items) + "]"
    case JObj(members) => "{" + EmitMembers(members) + "}"
  }

  function EmitItems(items: Items): string {
    match items
    case NoItems => ""
    case Item(head, rest) => Emit(head) + (if rest == NoItems then "" else "," + EmitItems(rest))
  }

  function EmitMembers(members: Members): string {
    match members
    case NoMembers => ""
    case Member(key, value, rest) =>
      Quoted(key) + ":" + Emit(value) + (if rest == NoMembers then "" else "," + EmitMembers(rest))
  }

  /** json.dumps(j, sort_keys=True, separators=(",", ":")). */
  function Dumps(j: Json): string { Emit(Sorted(j)) }

  // ------------------------------------------------------------- reader

  function HexValue(c: char): Option<nat> {
    if '0' <= c <= '9' then Some(c as int - 48)
    else if 'a' <= c <= 'f' then Some(c as int - 87)
    else if 'A' <= c <= 'F' then Some(c as int - 55)
    else None
  }

  /** The code unit of a \uXXXX escape at the start of s. */
  function ParseUnit(s: string): (r: Option<nat>)
    ensures r.Some? ==> |s| >= 6 && r.value < 0x10000
  {
    if |s| < 6 || s[0] != '\\' || s[1] != 'u' then None
    else
      match (HexValue(s[2]), HexValue(s[3]), HexValue(s[4]), HexValue(s[5]))
      case (Some(a), Some(b), Some(c), Some(d)) =>
        if a < 16 && b < 16 && c < 16 && d < 16 then Some(4096 * a + 256 * b + 16 * c + d) else None
      case _ => None
  }

  /** The character a surrogate pair stands for. */
  function FromPair(high: nat, low: nat): char
    requires 0xD800 <= high < 0xDC00 <= low < 0xE000
  {
    ((high - 0xD800) * 1024 + (low - 0xDC00) + 0x10000) as char
  }

  /** One possibly escaped character at the start of s, and what follows it. */
  function ParseChar(s: string): (r: Option<(char, string)>)
    ensures r.Some? ==> |r.value.1| < |s|
  {
    if s == "" || s[0] as int < 32 || s[0] == '\"' then None
    else if s[0] != '\\' then Some((s[0], s[1..]))
    else if |s| < 2 then None
    else if s[1] == '\"' || s[1] == '\\' || s[1] == '/' then Some((s[1], s[2..]))
    else if s[1] == 'n' then Some(('\n', s[2..]))
    else if s[1] == 'r' then Some(('\r', s[2..]))
    else if s[1] == 't' then Some(('\t', s[2..]))
    else if s[1] == 'f' then Some((12 as char, s[2..]))
    else if s[1] == 'b' then Some((8 as char, s[2..]))
    else
      match ParseUnit(s)
      case None => None
      case Some(u) =>
        if u < 0xD800 || 0xE000 <= u then Some((u as char, s[6..]))
        else if 0xDC00 <= u then None
        else
          match ParseUnit(s[6..])
          case None => None
          case Some(low) =>
            if 0xDC00 <= low < 0xE000
            then Some((FromPair(u, low), s[12..]))
            else None
  }

  /** The rest of a string whose opening quote has been read. */
  function ParseString(s: string): (r: Option<(string, string)>)
    ensures r.Some? ==> |r.value.1| < |s|
    decreases |s|
  {
    if s == "" then None
    else if s[0] == '\"' then Some(("", s[1..]))
    else
      match ParseChar(s)
      case None => None
      case Some((c, rest)) =>
        match ParseString(rest)
        case None => None
        case Some((cs, tail)) => Some(([c] + cs, tail))
  }

  predicate StartsWithDigit(s: string) { s != "" && IsDigit(s[0]) }

  /** The longest run of digits at the start of s. */
  function DigitRun(s: string): (d: string)
    ensures AllDigits(d) && |d| <= |s|
  {
    if StartsWithDigit(s) then [s[0]] + DigitRun(s[1..]) else ""
  }

  function ParseNat(s: string): (r: Option<(nat, string)>)
    ensures r.Some? ==> |r.value.1| < |s|
  {
    var d := DigitRun(s);
    if d == "" || (d[0] == '0' && |d| > 1) then None else Some((NumberOf(d), s[|d|..]))
  }

  function ParseInt(s: string): (r: Option<(Json, string)>)
    ensures r.Some? ==> |r.value.1| < |s|
  {
    var negative := s != "" && s[0] == '-';
    match ParseNat(if negative then s[1..] else s)
    case None => None
    case Some((n, rest)) => Some((JInt(if negative then -(n as int) else n), rest))
  }

  function ParseValue(s: string): (r: Option<(Json, string)>)
    ensures r.Some? ==> |r.value.1| < |s|
    decreases |s|, 0
  {
    if s == "" then None
    else if s[0] == 'n' then (if "null" <= s then Some((JNull, s[4..])) else None)
    else if s[0] == 't' then (if "true" <= s then Some((JBool(true), s[4..])) else None)
    else if s[0] == 'f' then (if "false" <= s then Some((JBool(false), s[5..])) else None)
    else if s[0] == '\"' then
      match ParseString(s[1..])
      case None => None
      case Some((t, rest)) => Some((JStr(t), rest))
    else if s[0] == '[' then
      if |s| > 1 && s[1] == ']' then Some((JArr(NoItems), s[2..]))
      else
        match ParseItems(s[1..])
        case None => None
        case Some((items, rest)) => Some((JArr(items), rest))
    else if s[0] == '{' then
      if |s| > 1 && s[1] == '}' then Some((JObj(NoMembers), s[2..]))
      else
        match ParseMembers(s[1..])
        case None => None
        case Some((members, rest)) => Some((JObj(members), rest))
    else ParseInt(s)
  }

  /** Items up to and including the closing bracket. */
  function ParseItems(s: string): (r: Option<(Items, string)>)
    ensures r.Some? ==> |r.value.1| < |s|
    decreases |s|, 1
  {
    match ParseValue(s)
    case None => None
    case Some((head, rest)) =>
      if rest == "" then None
      else if rest[0] == ']' then Some((Item(head, NoItems), rest[1..]))
      else if rest[0] == ',' then
        match ParseItems(rest[1..])
        case None => None
        case Some((items, tail)) => Some((Item(head, items), tail))
      else None
  }

  /** Members up to and including the closing brace. */
  function ParseMembers(s: string): (r: Option<(Members, string)>)
    ensures r.Some? ==> |r.value.1| < |s|
    decreases |s|, 1
  {
    if s == "" || s[0] != '\"' then None
    else
      match ParseString(s[1..])
      case None => None
      case Some((key, colon)) =>
        if colon == "" || colon[0] != ':' then None
        else
          match ParseValue(colon[1..])
          case None => None
          case Some((value, rest)) =>
            if rest == "" then None
            else if rest[0] == '}' then Some((Member(key, value, NoMembers), rest[1..]))
            else if rest[0] == ',' then
              match ParseMembers(rest[1..])
              case None => None
              case Some((members, tail)) => Some((Member(key, value, members), tail))
            else None
  }

  // ------------------------------------------- the reader undoes the printer

  lemma HexRoundTrip(d: nat)
    requires d < 16
    ensures HexValue(HexDigit(d)) == Some(d)
  {
  }

  lemma HexSum(u: nat)
    requires u < 0x10000
    ensures 4096 * (u / 4096) + 256 * (u / 256 % 16) + 16 * (u / 16 % 16) + u % 16 == u
  {
    assert u / 256 == u / 4096 * 16 + u / 256 % 16;
    assert u / 16 == u / 256 * 16 + u / 16 % 16;
  }

  lemma UnitRoundTrip(u: nat, rest: string)
    requires u < 0x10000
    ensures ParseUnit(UnicodeEscape(u) + rest) == Some(u)
  {
    var s := UnicodeEscape(u) + rest;
    assert s[..6] == UnicodeEscape(u);
    HexRoundTrip(u / 4096);
    HexRoundTrip(u / 256 % 16);
    HexRoundTrip(u / 16 % 16);
    HexRoundTrip(u % 16);
    HexSum(u);
    UnitOf(s, u / 4096, u / 256 % 16, u / 16 % 16, u % 16);
  }

  lemma UnitOf(s: string, a: nat, b: nat, c: nat, d: nat)
    requires |s| >= 6 && s[0] == '\\' && s[1] == 'u' && a < 16 && b < 16 && c < 16 && d < 16
    requires HexValue(s[2]) == Some(a) && HexValue(s[3]) == Some(b)
    requires HexValue(s[4]) == Some(c) && HexValue(s[5]) == Some(d)
    ensures ParseUnit(s) == Some(4096 * a + 256 * b + 16 * c + d)
  {
  }

  lemma ShortEscapeRoundTrip(c: char, e: char, rest: string)
    requires EscapeChar(c) == ['\\', e] && e != 'u'
    ensures ParseChar(EscapeChar(c) + rest) == Some((c, rest))
  {
    var s := EscapeChar(c) + rest;
    assert s[0] == '\\' && s[1] == e && s[2..] == rest;
    assert c as int == 12 ==> e == 'f';
    assert c as int == 8 ==> e == 'b';
  }

  lemma PlaneEscapeRoundTrip(c: char, rest: string)
    requires c as int < 0x10000
    ensures ParseChar(UnicodeEscape(c as int) + rest) == Some((c, rest))
  {
    var s := UnicodeEscape(c as int) + rest;
    UnitRoundTrip(c as int, rest);
    assert s[0] == '\\' && s[1] == 'u' && s[6..] == rest;
  }

  lemma PairRoundTrip(c: char, rest: string)
    requires 0x10000 <= c as int
    ensures ParseChar(EscapeChar(c) + rest) == Some((c, rest))
  {
    var n := c as int - 0x10000;
    var u, v := 0xD800 + n / 1024, 0xDC00 + n % 1024;
    assert FromPair(u, v) == c;
    var s := UnicodeEscape(u) + (UnicodeEscape(v) + rest);
    assert s == EscapeChar(c) + rest;
    UnitRoundTrip(u, UnicodeEscape(v) + rest);
    UnitRoundTrip(v, rest);
    PairParses(s, u, v);
    assert s[12..] == rest;
  }

  lemma PairParses(s: string, u: nat, v: nat)
    requires ParseUnit(s) == Some(u) && ParseUnit(s[6..]) == Some(v)
    requires 0xD800 <= u < 0xDC00 <= v < 0xE000
    ensures ParseChar(s) == Some((FromPair(u, v), s[12..]))
  {
  }

  lemma CharRoundTrip(c: char, rest: string)
    ensures ParseChar(EscapeChar(c) + rest) == Some((c, rest))
  {
    var n := c as int;
    if n == 34 || n == 92 || n == 8 || n == 9 || n == 10 || n == 12 || n == 13 {
      assert EscapeChar(c)[0] == '\\' && |EscapeChar(c)| == 2;
      ShortEscapeRoundTrip(c, EscapeChar(c)[1], rest);
    } else if 32 <= n < 127 {
      assert (EscapeChar(c) + rest)[1..] == rest;
    } else if n < 0x10000 {
      PlaneEscapeRoundTrip(c, rest);
    } else {
      PairRoundTrip(c, rest);
    }
  }

  lemma EscapeCharStart(c: char)
    ensures EscapeChar(c) != "" && EscapeChar(c)[0] != '\"'
  {
  }

  lemma StringStep(s: string, c: char, rest: string, cs: string, tail: string)
    requires s != "" && s[0] != '\"'
    requires ParseChar(s) == Some((c, rest)) && ParseString(rest) == Some((cs, tail))
    ensures ParseString(s) == Some(([c] + cs, tail))
  {
  }

  lemma Prepended(first: string, others: string, rest: string)
    ensures first + others + "\"" + rest == first + (others + "\"" + rest)
  {
  }

  lemma {:induction false} StringRoundTrip(t: string, rest: string)
    ensures ParseString(EscapeString(t) + "\"" + rest) == Some((t, rest))
  {
    if t == "" {
      assert EscapeString(t) + "\"" + rest == "\"" + rest;
    } else {
      var tail := EscapeString(t[1..]) + "\"" + rest;
      var s := EscapeChar(t[0]) + tail;
      Prepended(EscapeChar(t[0]), EscapeString(t[1..]), rest);
      EscapeCharStart(t[0]);
      CharRoundTrip(t[0], tail);
      StringRoundTrip(t[1..], rest);
      StringStep(s, t[0], tail, t[1..], rest);
      assert [t[0]] + t[1..] == t;
    }
  }

  lemma {:induction false} DigitRunOf(d: string, rest: string)
    requires AllDigits(d) && !StartsWithDigit(rest)
    ensures DigitRun(d + rest) == d
  {
    if d == "" {
      assert d + rest == rest;
    } else {
      assert (d + rest)[1..] == d[1..] + rest;
      DigitRunOf(d[1..], rest);
      assert [d[0]] + d[1..] == d;
    }
  }

  lemma NatRoundTrip(n: nat, rest: string)
    requires !StartsWithDigit(rest)
    ensures ParseNat(Decimal(n) + rest) == Some((n, rest))
  {
    DigitRunOf(Decimal(n), rest);
    assert (Decimal(n) + rest)[|Decimal(n)|..] == rest;
  }

  lemma EmitStart(j: Json)
    ensures Emit(j) != "" && Emit(j)[0] != ']' && Emit(j)[0] != '}'
  {
    match j
    case JInt(i) => assert i < 0 || IsDigit(Decimal(i)[0]);
    case _ =>
  }

  lemma Separated(first: string, mark: string, second: string, after: string)
    requires |mark| == 1
    ensures first + mark + second + after == first + (mark + second + after)
    ensures (mark + second + after)[1..] == second + after
  {
  }

  lemma Bracketed(open: string, inner: string, close: string, rest: string)
    requires |open| == |close| == 1
    ensures var s := open + inner + close + rest;
            s[0] == open[0] && s[1..] == inner + close + rest &&
            s[1] == (if inner == "" then close[0] else inner[0]) &&
            (inner == "" ==> s[2..] == rest)
  {
  }

  lemma Regroup(first: string, others: string, close: string, rest: string)
    ensures first + ("," + others) + close + rest == first + ("," + (others + close + rest))
  {
  }

  lemma AtomRoundTrip(j: Json, rest: string)
    requires j.JNull? || j.JBool?
    ensures ParseValue(Emit(j) + rest) == Some((j, rest))
  {
    var s := Emit(j) + rest;
    if j.JBool? && !j.b {
      assert s[..5] == "false" && s[5..] == rest && s[0] == 'f';
    } else {
      assert s[..4] == Emit(j) && s[4..] == rest;
    }
  }

  lemma NegativeRoundTrip(n: nat, rest: string)
    requires !StartsWithDigit(rest)
    ensures ParseInt("-" + Decimal(n) + rest) == Some((JInt(-(n as int)), rest))
  {
    assert ("-" + Decimal(n) + rest)[1..] == Decimal(n) + rest;
    NatRoundTrip(n, rest);
  }

  lemma PositiveRoundTrip(n: nat, rest: string)
    requires !StartsWithDigit(rest)
    ensures ParseInt(Decimal(n) + rest) == Some((JInt(n), rest))
  {
    assert (Decimal(n) + rest)[0] == Decimal(n)[0];
    NatRoundTrip(n, rest);
  }

  lemma NumberStep(s: string)
    requires s != "" && (s[0] == '-' || IsDigit(s[0]))
    ensures ParseValue(s) == ParseInt(s)
  {
  }

  lemma IntRoundTrip(i: int, rest: string)
    requires !StartsWithDigit(rest)
    ensures ParseValue(EmitInt(i) + rest) == Some((JInt(i), rest))
  {
    NumberStep(EmitInt(i) + rest);
    if i < 0 { NegativeRoundTrip(-i, rest); } else { PositiveRoundTrip(i, rest); }
  }

  lemma QuotedRoundTrip(t: string, rest: string)
    ensures ParseValue(Quoted(t) + rest) == Some((JStr(t), rest))
    ensures (Quoted(t) + rest)[0] == '\"' && ParseString((Quoted(t) + rest)[1..]) == Some((t, rest))
  {
    var s := Quoted(t) + rest;
    assert s[0] == '\"' && s[1..] == EscapeString(t) + "\"" + rest;
    StringRoundTrip(t, rest);
  }

  /** Reading what was printed gives the value back and leaves exactly what followed it. */
  lemma {:induction false} ValueRoundTrip(j: Json, rest: string)
    requires !StartsWithDigit(rest)
    ensures ParseValue(Emit(j) + rest) == Some((j, rest))
    decreases j, 0
  {
    match j
    case JInt(i) => IntRoundTrip(i, rest);
    case JStr(t) => QuotedRoundTrip(t, rest);
    case JArr(items) => ArrayRoundTrip(items, rest);
    case JObj(members) => ObjectRoundTrip(members, rest);
    case _ => AtomRoundTrip(j, rest);
  }

  lemma {:induction false} ArrayRoundTrip(items: Items, rest: string)
    ensures ParseValue(Emit(JArr(items)) + rest) == Some((JArr(items), rest))
    decreases items, 2
  {
    Bracketed("[", EmitItems(items), "]", rest);
    if items != NoItems {
      EmitStart(items.head);
      ItemsRoundTrip(items, rest);
    }
  }

  lemma MembersStart(members: Members)
    requires members.Member?
    ensures EmitMembers(members) != "" && EmitMembers(members)[0] == '\"'
  {
    assert Quoted(members.key)[0] == '\"';
  }

  lemma ObjectStep(s: string, members: Members, rest: string)
    requires |s| > 1 && s[0] == '{' && s[1] != '}'
    requires ParseMembers(s[1..]) == Some((members, rest))
    ensures ParseValue(s) == Some((JObj(members), rest))
  {
  }

  lemma {:induction false} ObjectRoundTrip(members: Members, rest: string)
    ensures ParseValue(Emit(JObj(members)) + rest) == Some((JObj(members), rest))
    decreases members, 2
  {
    var s := Emit(JObj(members)) + rest;
    Bracketed("{", EmitMembers(members), "}", rest);
    if members != NoMembers {
      MembersStart(members);
      MembersRoundTrip(members, rest);
      ObjectStep(s, members, rest);
    }
  }

  lemma {:induction false} ItemsRoundTrip(items: Items, rest: string)
    requires items.Item?
    ensures ParseItems(EmitItems(items) + "]" + rest) == Some((items, rest))
    decreases items, 1
  {
    var s := EmitItems(items) + "]" + rest;
    if items.rest == NoItems {
      assert s == Emit(items.head) + ("]" + rest);
      ValueRoundTrip(items.head, "]" + rest);
    } else {
      var more := EmitItems(items.rest) + "]" + rest;
      Regroup(Emit(items.head), EmitItems(items.rest), "]", rest);
      ValueRoundTrip(items.head, "," + more);
      ItemsRoundTrip(items.rest, rest);
      assert ("," + more)[1..] == more;
    }
  }

  /** A printed key, colon and value are read back, whatever follows the value. */
  lemma {:induction false} KeyValueRoundTrip(key: string, value: Json, after: string)
    requires !StartsWithDigit(after)
    ensures var s := Quoted(key) + ":" + Emit(value) + after;
            s[0] == '\"' &&
            ParseString(s[1..]) == Some((key, ":" + Emit(value) + after)) &&
            ParseValue((":" + Emit(value) + after)[1..]) == Some((value, after))
    decreases value, 1
  {
    var colon := ":" + Emit(value) + after;
    Separated(Quoted(key), ":", Emit(value), after);
    QuotedRoundTrip(key, colon);
    ValueRoundTrip(value, after);
  }

  lemma {:induction false} LastMemberRoundTrip(key: string, value: Json, rest: string)
    ensures ParseMembers(Quoted(key) + ":" + Emit(value) + ("}" + rest))
         == Some((Member(key, value, NoMembers), rest))
    decreases value, 2
  {
    KeyValueRoundTrip(key, value, "}" + rest);
    assert ("}" + rest)[1..] == rest;
  }

  lemma {:induction false} NextMemberRoundTrip(key: string, value: Json, more: string, others: Members, rest: string)
    requires ParseMembers(more) == Some((others, rest))
    ensures ParseMembers(Quoted(key) + ":" + Emit(value) + ("," + more)) == Some((Member(key, value, others), rest))
    decreases value, 2
  {
    KeyValueRoundTrip(key, value, "," + more);
    assert ("," + more)[1..] == more;
  }

  lemma {:induction false} MembersRoundTrip(members: Members, rest: string)
    requires members.Member?
    ensures ParseMembers(EmitMembers(members) + "}" + rest) == Some((members, rest))
    decreases members, 1
  {
    var Member(key, value, others) := members;
    if others == NoMembers {
      LastMemberRoundTrip(key, value, rest);
      assert EmitMembers(members) + "}" + rest == Quoted(key) + ":" + Emit(value) + ("}" + rest);
    } else {
      var more := EmitMembers(others) + "}" + rest;
      MembersRoundTrip(others, rest);
      NextMemberRoundTrip(key, value, more, others, rest);
      Regroup(Quoted(key) + ":" + Emit(value), EmitMembers(others), "}", rest);
    }
  }

  // ---------------------------------------- sorting keeps the meaning, and is canonical

  lemma {:induction false} KeysAreDomain(members: Members)
    ensures MembersMeaning(members).Keys == Keys(members)
  {
    if members.Member? { KeysAreDomain(members.rest); }
  }

  lemma UpdatesCommute(m: map<string, Value>, k: string, v: Value, l: string, w: Value)
    requires k != l
    ensures m[k := v][l := w] == m[l := w][k := v]
  {
  }

  lemma {:induction false} InsertKeys(key: string, value: Json, members: Members)
    ensures Keys(Insert(key, value, members)) == Keys(members) + {key}
  {
    if members.Member? && Less(members.key, key) { InsertKeys(key, value, members.rest); }
  }

  lemma {:induction false} InsertMeaning(key: string, value: Json, members: Members)
    requires key !in Keys(members)
    ensures MembersMeaning(Insert(key, value, members)) == MembersMeaning(members)[key := Meaning(value)]
  {
    if members.Member? && Less(members.key, key) {
      InsertMeaning(key, value, members.rest);
      UpdatesCommute(MembersMeaning(members.rest), key, Meaning(value), members.key, Meaning(members.value));
    }
  }

  /** Every object has strictly increasing keys, at every depth. */
  predicate Canonical(j: Json) {
    match j
    case JArr(items) => CanonicalItems(items)
    case JObj(members) => CanonicalMembers(members)
    case _ => true
  }

  predicate CanonicalItems(items: Items) {
    items.Item? ==> Canonical(items.head) && CanonicalItems(items.rest)
  }

  predicate CanonicalMembers(members: Members) {
    members.Member? ==>
      && (forall k | k in Keys(members.rest) :: Less(members.key, k))
      && Canonical(members.value)
      && CanonicalMembers(members.rest)
  }

  lemma {:induction false} InsertCanonical(key: string, value: Json, members: Members)
    requires CanonicalMembers(members) && Canonical(value) && key !in Keys(members)
    ensures CanonicalMembers(Insert(key, value, members))
  {
    if members.Member? {
      if Less(members.key, key) {
        InsertCanonical(key, value, members.rest);
        InsertKeys(key, value, members.rest);
      } else {
        LessTotal(members.key, key);
        forall k | k in Keys(members) ensures Less(key, k) {
          if k != members.key { LessTransitive(key, members.key, k); }
        }
      }
    }
  }

  lemma {:induction false} SortedKeepsMeaning(j: Json)
    requires Distinct(j)
    ensures Meaning(Sorted(j)) == Meaning(j) && Canonical(Sorted(j))
    decreases j
  {
    match j
    case JArr(items) => SortedItemsKeepMeaning(items);
    case JObj(members) => SortedMembersKeepMeaning(members);
    case _ =>
  }

  lemma {:induction false} SortedItemsKeepMeaning(items: Items)
    requires DistinctItems(items)
    ensures ItemsMeaning(SortedItems(items)) == ItemsMeaning(items) && CanonicalItems(SortedItems(items))
    decreases items
  {
    if items.Item? {
      SortedKeepsMeaning(items.head);
      SortedItemsKeepMeaning(items.rest);
    }
  }

  lemma {:induction false} SortedMembersKeepMeaning(members: Members)
    requires DistinctMembers(members)
    ensures MembersMeaning(SortedMembers(members)) == MembersMeaning(members)
    ensures CanonicalMembers(SortedMembers(members))
    decreases members
  {
    if members.Member? {
      var Member(key, value, rest) := members;
      SortedKeepsMeaning(value);
      SortedMembersKeepMeaning(rest);
      KeysAreDomain(rest);
      KeysAreDomain(SortedMembers(rest));
      InsertMeaning(key, Sorted(value), SortedMembers(rest));
      InsertCanonical(key, Sorted(value), SortedMembers(rest));
    }
  }

  /** Two canonical values with one meaning are the same value. */
  lemma {:induction false} CanonicalUnique(a: Json, b: Json)
    requires Canonical(a) && Canonical(b) && Meaning(a) == Meaning(b)
    ensures a == b
    decreases a
  {
    match a
    case JArr(items) => CanonicalItemsUnique(items, b.items);
    case JObj(members) => CanonicalMembersUnique(members, b.members);
    case _ =>
  }

  lemma {:induction false} CanonicalItemsUnique(a: Items, b: Items)
    requires CanonicalItems(a) && CanonicalItems(b) && ItemsMeaning(a) == ItemsMeaning(b)
    ensures a == b
    decreases a
  {
    if a.Item? && b.Item? {
      assert ItemsMeaning(a)[0] == Meaning(a.head) && ItemsMeaning(b)[0] == Meaning(b.head);
      assert ItemsMeaning(a)[1..] == ItemsMeaning(a.rest) && ItemsMeaning(b)[1..] == ItemsMeaning(b.rest);
      CanonicalUnique(a.head, b.head);
      CanonicalItemsUnique(a.rest, b.rest);
    }
  }

  lemma {:induction false} CanonicalMembersUnique(a: Members, b: Members)
    requires CanonicalMembers(a) && CanonicalMembers(b) && MembersMeaning(a) == MembersMeaning(b)
    ensures a == b
    decreases a
  {
    KeysAreDomain(a);
    KeysAreDomain(b);
    if a.Member? {
      assert a.key in Keys(b);
    }
    if b.Member? {
      assert b.key in Keys(a);
    }
    if a.Member? && b.Member? {
      if a.key != b.key { LessAsymmetric(a.key, b.key); }
      assert MembersMeaning(a)[a.key] == Meaning(a.value) && MembersMeaning(b)[a.key] == Meaning(b.value);
      CanonicalUnique(a.value, b.value);
      KeysAreDomain(a.rest);
      KeysAreDomain(b.rest);
      LessIrreflexive(a.key);
      assert MembersMeaning(a.rest) == MembersMeaning(a) - {a.key};
      assert MembersMeaning(b.rest) == MembersMeaning(b) - {a.key};
      CanonicalMembersUnique(a.rest, b.rest);
    }
  }

  // -------------------------------------------------------- main results

  /** json.loads(json.dumps(j)): the reader accepts the whole text and returns j with sorted keys. */
  lemma DumpsRoundTrip(j: Json)
    ensures ParseValue(Dumps(j)) == Some((Sorted(j), ""))
  {
    ValueRoundTrip(Sorted(j), "");
    assert Dumps(j) + "" == Dumps(j);
  }

  /** Two values print the same text exactly when they mean the same: injective, and blind to key order. */
  lemma DumpsCanonical(a: Json, b: Json)
    requires Distinct(a) && Distinct(b)
    ensures Dumps(a) == Dumps(b) <==> Meaning(a) == Meaning(b)
    ensures Dumps(a) == Dumps(b) <==> Sorted(a) == Sorted(b)
  {
    DumpsRoundTrip(a);
    DumpsRoundTrip(b);
    SortedKeepsMeaning(a);
    SortedKeepsMeaning(b);
    if Meaning(a) == Meaning(b) { CanonicalUnique(Sorted(a), Sorted(b)); }
  }

  // ---------------------------------------------- the form of the text

  /** Escapes use lower-case hexadecimal digits. */
  lemma HexDigits(d: nat, c: char)
    requires d < 16
    ensures c == HexDigit(d)
       <==> (d < 10 && c as int == '0' as int + d) || (d >= 10 && c as int == 'a' as int + (d - 10))
  {
  }

  /** The printable characters of ASCII. */
  predicate Printable(s: string) { forall i | 0 <= i < |s| :: ' ' <= s[i] <= '~' }

  lemma PrintableJoin(a: string, b: string)
    requires Printable(a) && Printable(b)
    ensures Printable(a + b)
  {
  }

  /** A character stands for itself exactly when it is printable and neither a quote nor a backslash; it gets a
      two-character escape exactly when JSON has a name for it and the printer uses it; other characters take
      one numeric escape, or two beyond the basic plane. */
  lemma EscapeForm(c: char)
    ensures Printable(EscapeChar(c))
    ensures EscapeChar(c) == [c] <==> ' ' <= c <= '~' && c != '\"' && c != '\\'
    ensures |EscapeChar(c)| == 2
       <==> c == '\"' || c == '\\' || c == '\n' || c == '\r' || c == '\t' || c as int == 8 || c as int == 12
    ensures |EscapeChar(c)| == 12 <==> c as int >= 0x1_0000
    ensures |EscapeChar(c)| == 1 || |EscapeChar(c)| == 2 || |EscapeChar(c)| == 6 || |EscapeChar(c)| == 12
    ensures |EscapeChar(c)| == 1 ==> EscapeChar(c) == [c]
  {
    if c as int >= 0x1_0000 {
      UnitPrintable(0xD800 + (c as int - 0x10000) / 1024);
      UnitPrintable(0xDC00 + (c as int - 0x10000) % 1024);
    } else {
      UnitPrintable(c as int);
    }
  }

  lemma UnitPrintable(u: nat)
    requires u < 0x1_0000
    ensures |UnicodeEscape(u)| == 6 && Printable(UnicodeEscape(u)) && UnicodeEscape(u)[0] == '\\'
  {
  }

  lemma {:induction false} StringPrintable(s: string)
    ensures Printable(EscapeString(s))
  {
    if s != "" {
      EscapeForm(s[0]);
      StringPrintable(s[1..]);
      PrintableJoin(EscapeChar(s[0]), EscapeString(s[1..]));
    }
  }

  lemma QuotedPrintable(s: string)
    ensures Printable(Quoted(s))
  {
    StringPrintable(s);
  }

  lemma IntPrintable(i: int)
    ensures Printable(EmitInt(i))
  {
    var d := Decimal(if i < 0 then -i else i);
    assert forall k | 0 <= k < |d| :: d[k] in d;
  }

  /** Whatever is printed is printable ASCII. */
  lemma {:induction false} TextPrintable(j: Json)
    ensures Printable(Emit(j))
    decreases j
  {
    match j
    case JInt(i) => IntPrintable(i);
    case JStr(s) => QuotedPrintable(s);
    case JArr(items) => ItemsPrintable(items);
    case JObj(members) => MembersPrintable(members);
    case _ =>
  }

  lemma {:induction false} ItemsPrintable(items: Items)
    ensures Printable(EmitItems(items))
    decreases items
  {
    if items.Item? {
      TextPrintable(items.head);
      ItemsPrintable(items.rest);
    }
  }

  lemma {:induction false} MembersPrintable(members: Members)
    ensures Printable(EmitMembers(members))
    decreases members
  {
    if members.Member? {
      QuotedPrintable(members.key);
      TextPrintable(members.value);
      MembersPrintable(members.rest);
    }
  }
}
