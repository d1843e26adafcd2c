/**
 The canonical printer behind the report cache keys, and a parser that
 undoes it. Texts are sequences of UTF-16 code units. A number is the text
 that JavaScript prints for it; undefined and non-finite numbers are excluded.
 */
module StableJson {
  import opened Base

  type Text = seq<nat>

  datatype Json =
    | Null
    | Bool(b: bool)
    | Num(token: Text)
    | Str(units: Text)
    | Arr(items: seq<Json>)
    | Obj(members: seq<Member>)  // in the order Object.keys gives them

  datatype Member = Member(key: Text, value: Json)

  const QUOTE: nat := 34
  const BACKSLASH: nat := 92
  const COMMA: nat := 44
  const COLON: nat := 58
  const LEFT_BRACKET: nat := 91
  const RIGHT_BRACKET: nat := 93
  const LEFT_BRACE: nat := 123
  const RIGHT_BRACE: nat := 125
  const NULL: Text := [110, 117, 108, 108]
  const TRUE: Text := [116, 114, 117, 101]
  const FALSE: Text := [102, 97, 108, 115, 101]

  // ----- strings: JSON.stringify -----

  predicate IsHigh(c: nat) {
    0xD800 <= c <= 0xDBFF
  }

  predicate IsLow(c: nat) {
    0xDC00 <= c <= 0xDFFF
  }

  function HexDigit(n: nat): nat
    requires n < 16
  {
    if n < 10 then 48 + n else 87 + n
  }

  /** A backslash, u, and four lower-case hexadecimal digits. */
  function UnicodeEscape(c: nat): Text
    requires c < 0x10000
  {
    [BACKSLASH, 117, HexDigit(c / 4096), HexDigit(c / 256 % 16), HexDigit(c / 16 % 16), HexDigit(c % 16)]
  }

  function EscapeUnit(c: nat): Text {
    if c == QUOTE || c == BACKSLASH then [BACKSLASH, c]
    else if c == 8 then [BACKSLASH, 98]
    else if c == 12 then [BACKSLASH, 102]
    else if c == 10 then [BACKSLASH, 110]
    else if c == 13 then [BACKSLASH, 114]
    else if c == 9 then [BACKSLASH, 116]
    else if c < 32 || IsHigh(c) || IsLow(c) then UnicodeEscape(c)
    else [c]
  }

  /** A surrogate pair stays as it is; a lone surrogate is escaped. */
  function Escape(s: Text): Text {
    if |s| == 0 then []
    else if |s| > 1 && IsHigh(s[0]) && IsLow(s[1]) then [s[0], s[1]] + Escape(s[2..])
    else EscapeUnit(s[0]) + Escape(s[1..])
  }

  ghost predicate PlainUnit(c: nat) {
    c >= 32 && c != 34 && c != 92 && !(0xD800 <= c <= 0xDFFF)
  }

  /** Text without quotes, backslashes, control characters and surrogates is printed as it is. */
  lemma {:induction false} PlainTextStays(s: Text)
    requires forall c <- s :: PlainUnit(c)
    ensures Escape(s) == s
  {
    if |s| > 0 {
      assert s[0] in s && forall c <- s[1..] :: c in s;
      PlainTextStays(s[1..]);
      PlainUnitStays(s[0]);
      hide EscapeUnit, IsHigh, IsLow, PlainUnit;
      assert s == [s[0]] + s[1..];
    }
  }

  lemma PlainUnitStays(c: nat)
    requires PlainUnit(c)
    ensures EscapeUnit(c) == [c] && !IsHigh(c)
  {
  }

  /** The escapes themselves: a letter where there is one, else four lower-case hexadecimal digits. */
  lemma EscapesAre()
    ensures EscapeUnit(34) == [92, 34] && EscapeUnit(92) == [92, 92] && EscapeUnit(8) == [92, 98]
    ensures EscapeUnit(9) == [92, 116] && EscapeUnit(10) == [92, 110] && EscapeUnit(12) == [92, 102]
    ensures EscapeUnit(13) == [92, 114] && EscapeUnit(0x1F) == [92, 117, 48, 48, 49, 102]
    ensures EscapeUnit(0xD83D) == [92, 117, 100, 56, 51, 100] && Escape([0xD83D, 0xDE00]) == [0xD83D, 0xDE00]
  {
    assert Escape([0xD83D, 0xDE00]) == [0xD83D, 0xDE00] + Escape([0xD83D, 0xDE00][2..]);
  }

  /** A surrogate is escaped by its number when it stands alone, and the two of a pair never are. */
  lemma Surrogates(high: nat, low: nat, c: nat)
    requires 0xD800 <= high <= 0xDBFF && 0xDC00 <= low <= 0xDFFF && 0xD800 <= c <= 0xDFFF
    ensures |EscapeUnit(c)| == 6 && EscapeUnit(c)[..2] == [92, 117]
    ensures Escape([high, low]) == [high, low]
  {
    var pair := [high, low];
    assert Escape(pair[2..]) == [];
  }

  function Quote(s: Text): Text {
    [QUOTE] + Escape(s) + [QUOTE]
  }

  // ----- keys in code unit order -----

  predicate Less(a: Text, b: Text) {
    if |b| == 0 then false
    else if |a| == 0 then true
    else a[0] < b[0] || (a[0] == b[0] && Less(a[1..], b[1..]))
  }

  /** The texts agree before their n-th units, where a ends or has the smaller one. */
  ghost predicate Precedes(a: Text, b: Text, n: nat) {
    n <= |a| && n < |b| && a[..n] == b[..n] && (n == |a| || a[n] < b[n])
  }

  /** Code unit order: by the first unit that differs, or a proper prefix first. */
  lemma LessIff(a: Text, b: Text)
    ensures Less(a, b) <==> exists n :: Precedes(a, b, n)
  {
    if Less(a, b) {
      var n := LessPrecedes(a, b);
    }
    if n :| Precedes(a, b, n) {
      PrecedesLess(a, b, n);
    }
  }

  lemma {:induction false} LessPrecedes(a: Text, b: Text) returns (n: nat)
    requires Less(a, b)
    ensures Precedes(a, b, n)
    decreases |a|
  {
    n := 0;
    if |a| > 0 && a[0] == b[0] {
      var m := LessPrecedes(a[1..], b[1..]);
      n := m + 1;
      assert a[..n] == [a[0]] + a[1..][..m] && b[..n] == [b[0]] + b[1..][..m];
    }
  }

  lemma {:induction false} PrecedesLess(a: Text, b: Text, n: nat)
    requires Precedes(a, b, n)
    ensures Less(a, b)
    decreases n
  {
    if n > 0 {
      assert a[0] == a[..n][0] && b[0] == b[..n][0];
      assert a[1..][..n - 1] == a[..n][1..] && b[1..][..n - 1] == b[..n][1..];
      PrecedesLess(a[1..], b[1..], n - 1);
    }
  }

  function InsertKey(k: Text, sorted: seq<Text>): seq<Text> {
    if |sorted| == 0 || Less(k, sorted[0]) then [k] + sorted
    else [sorted[0]] + InsertKey(k, sorted[1..])
  }

  function SortKeys(keys: seq<Text>): (sorted: seq<Text>)
    ensures forall k :: k in sorted <==> k in keys
  {
    if |keys| == 0 then []
    else
      InsertKeeps(keys[0], SortKeys(keys[1..]));
      InsertKey(keys[0], SortKeys(keys[1..]))
  }

  lemma {:induction false} InsertKeeps(k: Text, sorted: seq<Text>)
    ensures forall x :: x in InsertKey(k, sorted) <==> x == k || x in sorted
  {
    if |sorted| > 0 && !Less(k, sorted[0]) {
      InsertKeeps(k, sorted[1..]);
    }
  }

  // ----- the printer -----

  function Keys(members: seq<Member>): seq<Text> {
    seq(|members|, i requires 0 <= i < |members| => members[i].key)
  }

  /** The value of a key, as object[key] gives it. */
  function Lookup(v: Json, key: Text): (value: Json)
    requires v.Obj? && key in Keys(v.members)
    ensures value < v
    ensures exists i :: 0 <= i < |v.members| && v.members[i] == Member(key, value)
  {
    LookupFrom(v, key, 0)
  }

  function LookupFrom(v: Json, key: Text, i: nat): (value: Json)
    requires v.Obj? && i <= |v.members| && exists j :: i <= j < |v.members| && Keys(v.members)[j] == key
    ensures value < v
    ensures exists j :: 0 <= j < |v.members| && v.members[j] == Member(key, value)
    decreases |v.members| - i
  {
    if v.members[i].key == key then v.members[i].value else LookupFrom(v, key, i + 1)
  }

  function Join(texts: seq<Text>): Text {
    if |texts| == 0 then []
    else if |texts| == 1 then texts[0]
    else texts[0] + [COMMA] + Join(texts[1..])
  }

  function StableStringify(v: Json): Text
    decreases v, 1
  {
    match v
    case Null => NULL
    case Bool(b) => if b then TRUE else FALSE
    case Num(token) => token
    case Str(units) => Quote(units)
    case Arr(items) => [LEFT_BRACKET] + Join(StableItems(v, 0)) + [RIGHT_BRACKET]
    case Obj(members) => [LEFT_BRACE] + Join(StableFields(v, SortKeys(Keys(members)))) + [RIGHT_BRACE]
  }

  /** The texts of the items from the i-th on. */
  function StableItems(v: Json, i: nat): seq<Text>
    requires v.Arr? && i <= |v.items|
    decreases v, 0, |v.items| - i
  {
    if i == |v.items| then [] else [StableStringify(v.items[i])] + StableItems(v, i + 1)
  }

  /** The texts of the fields with these keys, in this order. */
  function StableFields(v: Json, keys: seq<Text>): seq<Text>
    requires v.Obj? && forall k <- keys :: k in Keys(v.members)
    decreases v, 0, |keys|
  {
    if |keys| == 0 then []
    else
      [Quote(keys[0]) + [COLON] + StableStringify(Lookup(v, keys[0]))] + StableFields(v, keys[1..])
  }

  /** The words and the punctuation of JSON, unit by unit. */
  lemma Punctuation(a: Json, b: Json, key: Text)
    ensures StableStringify(Null) == [110, 117, 108, 108] && StableStringify(Bool(true)) == [116, 114, 117, 101]
    ensures StableStringify(Bool(false)) == [102, 97, 108, 115, 101]
    ensures StableStringify(Arr([a, b])) == [91] + StableStringify(a) + [44] + StableStringify(b) + [93]
    ensures StableStringify(Obj([Member(key, a)])) == [123] + (Quote(key) + [58] + StableStringify(a)) + [125]
    ensures StableStringify(Str(key)) == Quote(key) == [34] + Escape(key) + [34]
  {
    TwoItems(Arr([a, b]), a, b);
    OneField(Obj([Member(key, a)]), key, a);
    hide Escape, SortKeys, Keys, StableItems, StableFields;
  }

  lemma TwoItems(v: Json, a: Json, b: Json)
    requires v == Arr([a, b])
    ensures StableStringify(v) == [91] + StableStringify(a) + [44] + StableStringify(b) + [93]
  {
    var x, y := StableStringify(a), StableStringify(b);
    assert StableItems(v, 2) == [];
    assert StableItems(v, 1) == [y];
    assert StableItems(v, 0) == [x, y];
    assert [x, y][1..] == [y];
    assert Join([x, y]) == x + [44] + y;
    hide StableItems, Join;
    assert [91] + (x + [44] + y) + [93] == [91] + x + [44] + y + [93];
  }

  lemma OneField(v: Json, key: Text, a: Json)
    requires v == Obj([Member(key, a)])
    ensures StableStringify(v) == [123] + (Quote(key) + [58] + StableStringify(a)) + [125]
  {
    OneKey(v, key, a);
    hide StableFields, SortKeys, Keys, Quote, Escape, Lookup;
  }

  lemma OneKey(v: Json, key: Text, a: Json)
    requires v == Obj([Member(key, a)])
    ensures SortKeys(Keys(v.members)) == [key]
    ensures StableFields(v, [key]) == [Quote(key) + [58] + StableStringify(a)]
  {
    assert Keys(v.members) == [key] && [key][1..] == [];
    assert SortKeys([key][1..]) == [];
    assert SortKeys([key]) == InsertKey(key, []);
    hide StableStringify, Quote, SortKeys;
    assert StableFields(v, [key][1..]) == [];
    assert Lookup(v, key) == a;
  }

  // ----- what the printed text stands for -----

  /** Numbers that print as numbers, and objects without a repeated key. */
  ghost predicate Proper(v: Json)
    decreases v
  {
    match v
    case Num(token) => IsNumber(token)
    case Arr(items) => forall item <- items :: Proper(item)
    case Obj(members) => Distinct(Keys(members)) && forall m <- members :: Proper(m.value)
    case _ => true
  }

  predicate IsNumberUnit(c: nat) {
    48 <= c <= 57 || c == 43 || c == 45 || c == 46 || c == 69 || c == 101
  }

  predicate IsNumber(token: Text) {
    |token| > 0 && forall c <- token :: IsNumberUnit(c)
  }

  /** Equal up to the order of object keys. */
  ghost predicate Equiv(v: Json, w: Json)
    decreases v
  {
    match v
    case Arr(items) =>
      && w.Arr? && |items| == |w.items|
      && (forall i :: 0 <= i < |items| ==> Equiv(items[i], w.items[i]))
    case Obj(members) =>
      && w.Obj? && (forall k :: k in Keys(members) <==> k in Keys(w.members))
      && (forall k <- Keys(members) :: Equiv(Lookup(v, k), Lookup(w, k)))
    case _ => v == w
  }

  /** The value with the keys of every object sorted. */
  function Canon(v: Json): Json
    decreases v, 1
  {
    match v
    case Arr(items) => Arr(CanonItems(v, 0))
    case Obj(members) => Obj(CanonFields(v, SortKeys(Keys(members))))
    case _ => v
  }

  function CanonItems(v: Json, i: nat): seq<Json>
    requires v.Arr? && i <= |v.items|
    decreases v, 0, |v.items| - i
  {
    if i == |v.items| then [] else [Canon(v.items[i])] + CanonItems(v, i + 1)
  }

  function CanonFields(v: Json, keys: seq<Text>): seq<Member>
    requires v.Obj? && forall k <- keys :: k in Keys(v.members)
    decreases v, 0, |keys|
  {
    if |keys| == 0 then []
    else [Member(keys[0], Canon(Lookup(v, keys[0])))] + CanonFields(v, keys[1..])
  }

  // ----- the parser, after RFC 8259, sections 2 to 7, without white space -----

  /** Reads `word` at the start of a text. */
  function Literal(word: Text, v: Json, t: Text): Option<(Json, Text)> {
    if word <= t then Some((v, t[|word|..])) else None
  }

  function HexValue(c: nat): Option<nat> {
    if 48 <= c <= 57 then Some(c - 48)
    else if 97 <= c <= 102 then Some(c - 87)
    else if 65 <= c <= 70 then Some(c - 55)
    else None
  }

  function Hex4(a: nat, b: nat, c: nat, d: nat): Option<nat> {
    var p, q, r, s := HexValue(a), HexValue(b), HexValue(c), HexValue(d);
    if p.Some? && q.Some? && r.Some? && s.Some? then
      Some(p.value * 4096 + q.value * 256 + r.value * 16 + s.value)
    else None
  }

  function ShortEscape(c: nat): Option<nat> {
    match c
    case 34 => Some(34)
    case 92 => Some(92)
    case 47 => Some(47)
    case 98 => Some(8)
    case 102 => Some(12)
    case 110 => Some(10)
    case 114 => Some(13)
    case 116 => Some(9)
    case _ => None
  }

  function Prepend(c: nat, r: Option<(Text, Text)>): Option<(Text, Text)> {
    match r
    case None => None
    case Some((s, rest)) => Some(([c] + s, rest))
  }

  /** The rest of a string up to its closing quote. */
  function Unescape(t: Text): (r: Option<(Text, Text)>)
    ensures r.Some? ==> |r.value.1| < |t|
  {
    if |t| == 0 || t[0] < 32 then None
    else if t[0] == QUOTE then Some(([], t[1..]))
    else if t[0] != BACKSLASH then Prepend(t[0], Unescape(t[1..]))
    else if |t| >= 6 && t[1] == 117 then
      match Hex4(t[2], t[3], t[4], t[5])
      case None => None
      case Some(c) => Prepend(c, Unescape(t[6..]))
    else if |t| >= 2 then
      match ShortEscape(t[1])
      case None => None
      case Some(c) => Prepend(c, Unescape(t[2..]))
    else None
  }

  function NumberRun(t: Text): (n: nat)
    ensures n <= |t|
  {
    if |t| == 0 || !IsNumberUnit(t[0]) then 0 else 1 + NumberRun(t[1..])
  }

  /** A value without brackets or braces. */
  function ParseScalar(t: Text): (r: Option<(Json, Text)>)
    requires |t| > 0
    ensures r.Some? ==> |r.value.1| < |t|
  {
    if t[0] == NULL[0] then Literal(NULL, Null, t)
    else if t[0] == TRUE[0] then Literal(TRUE, Bool(true), t)
    else if t[0] == FALSE[0] then Literal(FALSE, Bool(false), t)
    else if t[0] == QUOTE then
      match Unescape(t[1..])
      case None => None
      case Some((s, rest)) => Some((Str(s), rest))
    else
      var n := NumberRun(t);
      if n == 0 then None else Some((Num(t[..n]), t[n..]))
  }

  function ParseValue(t: Text): (r: Option<(Json, Text)>)
    ensures r.Some? ==> |r.value.1| < |t|
    decreases |t|, 0
  {
    if |t| == 0 then None
    else if t[0] == LEFT_BRACKET then
      if |t| > 1 && t[1] == RIGHT_BRACKET then Some((Arr([]), t[2..]))
      else
        match ParseItems(t[1..])
        case None => None
        case Some((items, rest)) => Some((Arr(items), rest))
    else if t[0] == LEFT_BRACE then
      if |t| > 1 && t[1] == RIGHT_BRACE then Some((Obj([]), t[2..]))
      else
        match ParseMembers(t[1..])
        case None => None
        case Some((members, rest)) => Some((Obj(members), rest))
    else ParseScalar(t)
  }

  /** One item or more, up to the closing bracket. */
  function ParseItems(t: Text): (r: Option<(seq<Json>, Text)>)
    ensures r.Some? ==> |r.value.1| < |t|
    decreases |t|, 1
  {
    match ParseValue(t)
    case None => None
    case Some((v, rest)) =>
      if |rest| == 0 then None
      else if rest[0] == RIGHT_BRACKET then Some(([v], rest[1..]))
      else if rest[0] != COMMA then None
      else
        match ParseItems(rest[1..])
        case None => None
        case Some((items, rest')) => Some(([v] + items, rest'))
  }

  function ParseMember(t: Text): (r: Option<(Member, Text)>)
    ensures r.Some? ==> |r.value.1| < |t|
    decreases |t|, 1
  {
    if |t| == 0 || t[0] != QUOTE then None
    else
      match Unescape(t[1..])
      case None => None
      case Some((key, rest)) =>
        if |rest| == 0 || rest[0] != COLON then None
        else
          match ParseValue(rest[1..])
          case None => None
          case Some((v, rest')) => Some((Member(key, v), rest'))
  }

  /** One member or more, up to the closing brace. */
  function ParseMembers(t: Text): (r: Option<(seq<Member>, Text)>)
    ensures r.Some? ==> |r.value.1| < |t|
    decreases |t|, 2
  {
    match ParseMember(t)
    case None => None
    case Some((m, rest)) =>
      if |rest| == 0 then None
      else if rest[0] == RIGHT_BRACE then Some(([m], rest[1..]))
      else if rest[0] != COMMA then None
      else
        match ParseMembers(rest[1..])
        case None => None
        case Some((members, rest')) => Some(([m] + members, rest'))
  }

  // ----- the parser undoes the printer -----

  lemma UnitReadsBack(c: nat, rest: Text)
    ensures Unescape(EscapeUnit(c) + rest) == Prepend(c, Unescape(rest))
  {
    if EscapeUnit(c) == [c] {
      assert ([c] + rest)[1..] == rest;
    } else if |EscapeUnit(c)| == 2 {
      assert (EscapeUnit(c) + rest)[2..] == rest;
    } else {
      HexReadsBack(c);
      assert (EscapeUnit(c) + rest)[6..] == rest;
      hide Hex4;
    }
  }

  lemma DigitReadsBack(n: nat)
    requires n < 16
    ensures HexValue(HexDigit(n)) == Some(n)
  {
  }

  lemma HexReadsBack(c: nat)
    requires c < 0x10000
    ensures var u := UnicodeEscape(c); Hex4(u[2], u[3], u[4], u[5]) == Some(c)
  {
    DigitReadsBack(c / 4096);
    DigitReadsBack(c / 256 % 16);
    DigitReadsBack(c / 16 % 16);
    DigitReadsBack(c % 16);
    hide HexValue, HexDigit;
    assert c / 16 / 16 == c / 256 && c / 256 / 16 == c / 4096;
  }

  lemma PairReadsBack(high: nat, low: nat, rest: Text)
    requires IsHigh(high) && IsLow(low)
    ensures Unescape([high, low] + rest) == Prepend(high, Prepend(low, Unescape(rest)))
  {
    assert ([high, low] + rest)[1..] == [low] + rest;
    assert ([low] + rest)[1..] == rest;
  }

  lemma QuoteEnds(rest: Text)
    ensures Unescape([QUOTE] + rest) == Some(([], rest))
  {
    assert ([QUOTE] + rest)[1..] == rest;
  }

  lemma {:induction false} StringReadsBack(s: Text, rest: Text)
    ensures Unescape(Escape(s) + ([QUOTE] + rest)) == Some((s, rest))
  {
    hide Unescape, EscapeUnit;
    if |s| == 0 {
      QuoteEnds(rest);
      assert Escape(s) + ([QUOTE] + rest) == [QUOTE] + rest;
    } else if |s| > 1 && IsHigh(s[0]) && IsLow(s[1]) {
      var more := Escape(s[2..]) + ([QUOTE] + rest);
      assert Escape(s) + ([QUOTE] + rest) == [s[0], s[1]] + more;
      assert s == [s[0]] + ([s[1]] + s[2..]);
      StringReadsBack(s[2..], rest);
      PairReadsBack(s[0], s[1], more);
    } else {
      var more := Escape(s[1..]) + ([QUOTE] + rest);
      assert Escape(s) + ([QUOTE] + rest) == EscapeUnit(s[0]) + more;
      assert s == [s[0]] + s[1..];
      StringReadsBack(s[1..], rest);
      UnitReadsBack(s[0], more);
    }
  }

  lemma {:induction false} NumberReadsBack(token: Text, rest: Text)
    requires (forall c <- token :: IsNumberUnit(c)) && Stops(rest)
    ensures NumberRun(token + rest) == |token|
  {
    if |token| == 0 {
      assert token + rest == rest;
    } else {
      assert (token + rest)[1..] == token[1..] + rest;
      NumberReadsBack(token[1..], rest);
    }
  }

  /** What may follow a value: nothing that could be part of a number. */
  predicate Stops(rest: Text) {
    |rest| > 0 ==> !IsNumberUnit(rest[0])
  }

  // One step of the parser each, given what the parts read as.

  lemma ItemsEnd(text: Text, v: Json, rest: Text)
    requires ParseValue(text + ([RIGHT_BRACKET] + rest)) == Some((v, [RIGHT_BRACKET] + rest))
    ensures ParseItems(text + ([RIGHT_BRACKET] + rest)) == Some(([v], rest))
  {
    assert ([RIGHT_BRACKET] + rest)[1..] == rest;
  }

  lemma ItemsGoOn(text: Text, v: Json, more: Text, items: seq<Json>, rest: Text)
    requires ParseValue(text + ([COMMA] + more)) == Some((v, [COMMA] + more))
    requires ParseItems(more) == Some((items, rest))
    ensures ParseItems(text + ([COMMA] + more)) == Some(([v] + items, rest))
  {
    assert ([COMMA] + more)[1..] == more;
  }

  lemma MembersEnd(text: Text, m: Member, rest: Text)
    requires ParseMember(text + ([RIGHT_BRACE] + rest)) == Some((m, [RIGHT_BRACE] + rest))
    ensures ParseMembers(text + ([RIGHT_BRACE] + rest)) == Some(([m], rest))
  {
    assert ([RIGHT_BRACE] + rest)[1..] == rest;
  }

  lemma MembersGoOn(text: Text, m: Member, more: Text, members: seq<Member>, rest: Text)
    requires ParseMember(text + ([COMMA] + more)) == Some((m, [COMMA] + more))
    requires ParseMembers(more) == Some((members, rest))
    ensures ParseMembers(text + ([COMMA] + more)) == Some(([m] + members, rest))
  {
    assert ([COMMA] + more)[1..] == more;
  }

  lemma MemberReads(key: Text, text: Text, v: Json, rest: Text)
    requires ParseValue(text + rest) == Some((v, rest))
    ensures ParseMember(Quote(key) + [COLON] + text + rest) == Some((Member(key, v), rest))
  {
    hide ParseValue, Unescape, Escape;
    var more := [COLON] + (text + rest);
    assert (Quote(key) + [COLON] + text + rest)[1..] == Escape(key) + ([QUOTE] + more);
    StringReadsBack(key, more);
    assert more[1..] == text + rest;
  }

  /** What a bracket and a brace make of what is inside them. */
  lemma ArrayReads(t: Text, items: seq<Json>, rest: Text)
    requires |t| > 1 && t[0] == LEFT_BRACKET && t[1] != RIGHT_BRACKET && ParseItems(t[1..]) == Some((items, rest))
    ensures ParseValue(t) == Some((Arr(items), rest))
  {
    hide ParseScalar, ParseItems, ParseMembers;
  }

  lemma ObjectReads(t: Text, members: seq<Member>, rest: Text)
    requires |t| > 1 && t[0] == LEFT_BRACE && t[1] == QUOTE && ParseMembers(t[1..]) == Some((members, rest))
    ensures ParseValue(t) == Some((Obj(members), rest))
  {
    hide ParseScalar, ParseItems, ParseMembers;
  }

  lemma EmptyReads(rest: Text)
    ensures ParseValue([LEFT_BRACKET] + [] + [RIGHT_BRACKET] + rest) == Some((Arr([]), rest))
    ensures ParseValue([LEFT_BRACE] + [] + [RIGHT_BRACE] + rest) == Some((Obj([]), rest))
  {
    hide ParseScalar;
    assert ([LEFT_BRACKET] + [] + [RIGHT_BRACKET] + rest)[2..] == rest;
    assert ([LEFT_BRACE] + [] + [RIGHT_BRACE] + rest)[2..] == rest;
  }

  lemma NumberReads(token: Text, rest: Text)
    requires IsNumber(token) && Stops(rest)
    ensures ParseScalar(token + rest) == Some((Num(token), rest))
  {
    var t := token + rest;
    NumberReadsBack(token, rest);
    assert t[0] in token && t[..|token|] == token && t[|token|..] == rest;
    hide NumberRun, Unescape;
  }

  lemma StringReads(s: Text, rest: Text)
    ensures ParseScalar(Quote(s) + rest) == Some((Str(s), rest))
  {
    StringReadsBack(s, rest);
    assert (Quote(s) + rest)[1..] == Escape(s) + ([QUOTE] + rest);
    hide Escape, Unescape, NumberRun;
  }

  lemma WordReads(v: Json, rest: Text)
    requires v.Null? || v.Bool?
    ensures ParseScalar(StableStringify(v) + rest) == Some((v, rest))
  {
    hide Escape, Unescape, NumberRun;
    var text := StableStringify(v);
    assert (text + rest)[|text|..] == rest;
  }

  lemma ScalarReads(v: Json, rest: Text)
    requires Proper(v) && Stops(rest) && !v.Arr? && !v.Obj?
    ensures ParseValue(StableStringify(v) + rest) == Some((v, rest))
  {
    hide ParseScalar, ParseItems, ParseMembers;
    match v
    case Num(token) => NumberReads(token, rest); assert IsNumberUnit(token[0]);
    case Str(units) => StringReads(units, rest);
    case _ => WordReads(v, rest);
  }

  /** The parser reads back the sorted value and leaves what follows it. */
  lemma {:induction false} ReadsBack(v: Json, rest: Text)
    requires Proper(v) && Stops(rest)
    ensures ParseValue(StableStringify(v) + rest) == Some((Canon(v), rest))
    decreases v, 1
  {
    hide ParseValue, ParseItems, ParseMembers, Quote, Escape, Keys;
    var t := StableStringify(v) + rest;
    match v
    case Arr(items) =>
      if |items| == 0 {
        EmptyReads(rest);
      } else {
        ItemsReadBack(v, 0, rest);
        assert t[1..] == Join(StableItems(v, 0)) + ([RIGHT_BRACKET] + rest);
        hide Join, StableItems, CanonItems;
        ArrayReads(t, CanonItems(v, 0), rest);
      }
    case Obj(members) =>
      var keys := SortKeys(Keys(members));
      if |keys| == 0 {
        EmptyReads(rest);
      } else {
        FieldsReadBack(v, keys, rest);
        assert t[1..] == Join(StableFields(v, keys)) + ([RIGHT_BRACE] + rest);
        hide Join, StableFields, CanonFields;
        ObjectReads(t, CanonFields(v, keys), rest);
      }
    case _ => ScalarReads(v, rest);
  }

  /** No value starts like a closing bracket. */
  lemma FirstUnit(v: Json)
    requires Proper(v)
    ensures |StableStringify(v)| > 0 && StableStringify(v)[0] != RIGHT_BRACKET
  {
    if v.Num? {
      assert IsNumberUnit(v.token[0]);
    }
  }

  lemma {:induction false} ItemsReadBack(v: Json, i: nat, rest: Text)
    requires v.Arr? && i < |v.items| && Proper(v)
    ensures ParseItems(Join(StableItems(v, i)) + ([RIGHT_BRACKET] + rest)) == Some((CanonItems(v, i), rest))
    ensures |Join(StableItems(v, i))| > 0 && Join(StableItems(v, i))[0] != RIGHT_BRACKET
    decreases v, 0, |v.items| - i
  {
    hide ParseValue, ParseItems, StableStringify;
    var text := StableStringify(v.items[i]);
    FirstUnit(v.items[i]);
    var texts := StableItems(v, i);
    assert texts[0] == text && texts[1..] == StableItems(v, i + 1);
    assert CanonItems(v, i) == [Canon(v.items[i])] + CanonItems(v, i + 1);
    if i + 1 == |v.items| {
      ReadsBack(v.items[i], [RIGHT_BRACKET] + rest);
      assert CanonItems(v, i) == [Canon(v.items[i])];
      assert Join(texts) == text;
      ItemsEnd(text, Canon(v.items[i]), rest);
    } else {
      var more := Join(StableItems(v, i + 1)) + ([RIGHT_BRACKET] + rest);
      ReadsBack(v.items[i], [COMMA] + more);
      ItemsReadBack(v, i + 1, rest);
      assert Join(texts) + ([RIGHT_BRACKET] + rest) == text + ([COMMA] + more);
      ItemsGoOn(text, Canon(v.items[i]), more, CanonItems(v, i + 1), rest);
    }
  }

  function FieldText(v: Json, key: Text): Text
    requires v.Obj? && key in Keys(v.members)
  {
    Quote(key) + [COLON] + StableStringify(Lookup(v, key))
  }

  function CanonField(v: Json, key: Text): Member
    requires v.Obj? && key in Keys(v.members)
  {
    Member(key, Canon(Lookup(v, key)))
  }

  lemma FieldStarts(v: Json, key: Text)
    requires v.Obj? && key in Keys(v.members)
    ensures |FieldText(v, key)| > 0 && FieldText(v, key)[0] == QUOTE
  {
    hide StableStringify, Escape, Lookup;
  }

  lemma JoinFirst(texts: seq<Text>)
    requires |texts| > 0
    ensures Join(texts) == if |texts| == 1 then texts[0] else texts[0] + ([COMMA] + Join(texts[1..]))
  {
    if |texts| > 1 {
      var rest := Join(texts[1..]);
      assert Join(texts) == texts[0] + [COMMA] + rest;
      hide Join;
      Associative(texts[0], [COMMA], rest);
    }
  }

  lemma FirstText(v: Json, keys: seq<Text>)
    requires v.Obj? && |keys| > 0 && forall k <- keys :: k in Keys(v.members)
    ensures var text := FieldText(v, keys[0]);
            Join(StableFields(v, keys))
              == if |keys| == 1 then text else text + ([COMMA] + Join(StableFields(v, keys[1..])))
  {
    var texts := StableFields(v, keys);
    assert texts == [FieldText(v, keys[0])] + StableFields(v, keys[1..]);
    assert texts[1..] == StableFields(v, keys[1..]);
    assert |keys| == 1 <==> |texts| == 1;
    hide *;
    JoinFirst(texts);
  }

  lemma FirstMember(v: Json, keys: seq<Text>)
    requires v.Obj? && |keys| > 0 && forall k <- keys :: k in Keys(v.members)
    ensures CanonFields(v, keys)
         == if |keys| == 1 then [CanonField(v, keys[0])] else [CanonField(v, keys[0])] + CanonFields(v, keys[1..])
  {
    hide Canon, Lookup;
    assert |keys| == 1 ==> CanonFields(v, keys) == [CanonField(v, keys[0])];
  }

  lemma {:induction false} FieldsReadBack(v: Json, keys: seq<Text>, rest: Text)
    requires v.Obj? && |keys| > 0 && (forall k <- keys :: k in Keys(v.members)) && Proper(v)
    ensures ParseMembers(Join(StableFields(v, keys)) + ([RIGHT_BRACE] + rest)) == Some((CanonFields(v, keys), rest))
    ensures |Join(StableFields(v, keys))| > 0 && Join(StableFields(v, keys))[0] == QUOTE
    decreases v, 0, |keys|
  {
    hide *;
    var text := FieldText(v, keys[0]);
    FieldStarts(v, keys[0]);
    FirstText(v, keys);
    FirstMember(v, keys);
    if |keys| == 1 {
      FieldReadsBack(v, keys[0], RIGHT_BRACE, rest);
      MembersEnd(text, CanonField(v, keys[0]), rest);
    } else {
      var fields := Join(StableFields(v, keys[1..]));
      var more := fields + ([RIGHT_BRACE] + rest);
      FieldsReadBack(v, keys[1..], rest);
      FieldReadsBack(v, keys[0], COMMA, more);
      Associative(text, [COMMA] + fields, [RIGHT_BRACE] + rest);
      Associative([COMMA], fields, [RIGHT_BRACE] + rest);
      MembersGoOn(text, CanonField(v, keys[0]), more, CanonFields(v, keys[1..]), rest);
    }
  }

  lemma {:induction false} FieldReadsBack(v: Json, key: Text, next: nat, rest: Text)
    requires v.Obj? && key in Keys(v.members) && Proper(v) && next in {COMMA, RIGHT_BRACE}
    ensures ParseMember(FieldText(v, key) + ([next] + rest)) == Some((CanonField(v, key), [next] + rest))
    decreases v, 0, 0
  {
    var value := Lookup(v, key);
    assert Proper(value) && Stops([next] + rest);
    hide ParseMember, ParseValue, Quote, StableStringify, Canon, Proper, Stops;
    ReadsBack(value, [next] + rest);
    MemberReads(key, StableStringify(value), Canon(value), [next] + rest);
  }

  // ----- sorted keys are determined by the set of keys -----

  lemma {:induction false} LessIsOrder(a: Text, b: Text)
    ensures Less(a, b) || Less(b, a) || a == b
    ensures !(Less(a, b) && Less(b, a)) && !Less(a, a)
  {
    if |a| > 0 {
      LessIsOrder(a[1..], a[1..]);
    }
    if |a| > 0 && |b| > 0 && a[0] == b[0] {
      LessIsOrder(a[1..], b[1..]);
      if a[1..] == b[1..] {
        assert a == [a[0]] + a[1..] == b;
      }
    }
  }

  lemma {:induction false} LessIsTransitive(a: Text, b: Text, c: Text)
    requires Less(a, b) && Less(b, c)
    ensures Less(a, c)
  {
    if |a| > 0 && a[0] == b[0] == c[0] {
      LessIsTransitive(a[1..], b[1..], c[1..]);
    }
  }

  ghost predicate Sorted(keys: seq<Text>) {
    forall i, j :: 0 <= i < j < |keys| ==> Less(keys[i], keys[j])
  }

  lemma {:induction false} InsertSorts(k: Text, sorted: seq<Text>)
    requires Sorted(sorted) && k !in sorted
    ensures Sorted(InsertKey(k, sorted))
  {
    if |sorted| > 0 {
      LessIsOrder(k, sorted[0]);
      if Less(k, sorted[0]) {
        forall x | x in sorted
          ensures Less(k, x)
        {
          if x != sorted[0] {
            LessIsTransitive(k, sorted[0], x);
          }
        }
      } else {
        InsertSorts(k, sorted[1..]);
        InsertKeeps(k, sorted[1..]);
        var rest := InsertKey(k, sorted[1..]);
        assert forall x <- sorted[1..] :: Less(sorted[0], x);
        assert forall x <- rest :: Less(sorted[0], x);
      }
    }
  }

  lemma {:induction false} SortSorts(keys: seq<Text>)
    requires Distinct(keys)
    ensures Sorted(SortKeys(keys))
  {
    if |keys| > 0 {
      SortSorts(keys[1..]);
      InsertSorts(keys[0], SortKeys(keys[1..]));
    }
  }

  lemma {:induction false} OneSorting(a: seq<Text>, b: seq<Text>)
    requires Sorted(a) && Sorted(b) && forall k :: k in a <==> k in b
    ensures a == b
  {
    assert |b| > 0 ==> b[0] in a;
    assert |a| > 0 ==> a[0] in b;
    if |a| > 0 && |b| > 0 {
      SameHead(a, b);
      forall k
        ensures k in a[1..] <==> k in b[1..]
      {
        LessIsOrder(a[0], a[0]);
        assert k in a <==> k == a[0] || k in a[1..];
        assert k in b <==> k == b[0] || k in b[1..];
      }
      OneSorting(a[1..], b[1..]);
    }
  }

  lemma SameHead(a: seq<Text>, b: seq<Text>)
    requires Sorted(a) && Sorted(b) && (forall k :: k in a <==> k in b) && |a| > 0 && |b| > 0
    ensures a[0] == b[0]
  {
    assert a[0] in b && b[0] in a;
    LessIsOrder(a[0], b[0]);
  }

  lemma SameKeysSameOrder(v: Json, w: Json)
    requires v.Obj? && w.Obj? && Distinct(Keys(v.members)) && Distinct(Keys(w.members))
    requires forall k :: k in Keys(v.members) <==> k in Keys(w.members)
    ensures SortKeys(Keys(v.members)) == SortKeys(Keys(w.members))
  {
    SortSorts(Keys(v.members));
    SortSorts(Keys(w.members));
    OneSorting(SortKeys(Keys(v.members)), SortKeys(Keys(w.members)));
  }

  // ----- equal texts are equal values -----

  lemma {:induction false} CanonItemsAt(v: Json, i: nat, k: nat)
    requires v.Arr? && i <= k <= |v.items|
    ensures |CanonItems(v, i)| == |v.items| - i
    ensures k < |v.items| ==> CanonItems(v, i)[k - i] == Canon(v.items[k])
    decreases |v.items| - i
  {
    if i < k {
      CanonItemsAt(v, i + 1, k);
    } else if i < |v.items| {
      CanonItemsAt(v, i + 1, i + 1);
    }
  }

  lemma {:induction false} CanonFieldsAt(v: Json, keys: seq<Text>, k: nat)
    requires v.Obj? && (forall key <- keys :: key in Keys(v.members)) && k <= |keys|
    ensures |CanonFields(v, keys)| == |keys|
    ensures k < |keys| ==> CanonFields(v, keys)[k] == Member(keys[k], Canon(Lookup(v, keys[k])))
  {
    if |keys| > 0 {
      CanonFieldsAt(v, keys[1..], if k > 0 then k - 1 else 0);
    }
  }

  lemma {:induction false} CanonIsComplete(v: Json, w: Json)
    requires Canon(v) == Canon(w)
    ensures Equiv(v, w)
    decreases v, 1
  {
    match v
    case Arr(items) => CanonItemsComplete(v, w);
    case Obj(members) => CanonFieldsComplete(v, w);
    case _ =>
  }

  lemma {:induction false} CanonItemsComplete(v: Json, w: Json)
    requires v.Arr? && w.Arr? && CanonItems(v, 0) == CanonItems(w, 0)
    ensures Equiv(v, w)
    decreases v, 0
  {
    CanonItemsAt(v, 0, |v.items|);
    CanonItemsAt(w, 0, |w.items|);
    forall i | 0 <= i < |v.items|
      ensures Equiv(v.items[i], w.items[i])
    {
      CanonItemsAt(v, 0, i);
      CanonItemsAt(w, 0, i);
      CanonIsComplete(v.items[i], w.items[i]);
    }
  }

  lemma {:induction false} CanonFieldsComplete(v: Json, w: Json)
    requires v.Obj? && w.Obj?
    requires CanonFields(v, SortKeys(Keys(v.members))) == CanonFields(w, SortKeys(Keys(w.members)))
    ensures Equiv(v, w)
    decreases v, 0
  {
    var a, b := SortKeys(Keys(v.members)), SortKeys(Keys(w.members));
    CanonFieldsAt(v, a, |a|);
    CanonFieldsAt(w, b, |b|);
    forall i | 0 <= i < |a|
      ensures a[i] == b[i] && Equiv(Lookup(v, a[i]), Lookup(w, a[i]))
    {
      CanonFieldsAt(v, a, i);
      CanonFieldsAt(w, b, i);
      CanonIsComplete(Lookup(v, a[i]), Lookup(w, a[i]));
    }
    assert a == b;
  }

  lemma {:induction false} EquivPrintsEqual(v: Json, w: Json)
    requires Proper(v) && Proper(w) && Equiv(v, w)
    ensures StableStringify(v) == StableStringify(w)
    decreases v, 1
  {
    match v
    case Arr(items) => ItemsPrintEqual(v, w, 0);
    case Obj(members) =>
      SameKeysSameOrder(v, w);
      FieldsPrintEqual(v, w, SortKeys(Keys(members)));
    case _ =>
  }

  lemma {:induction false} ItemsPrintEqual(v: Json, w: Json, i: nat)
    requires v.Arr? && Equiv(v, w) && i <= |v.items| && Proper(v) && Proper(w)
    ensures StableItems(v, i) == StableItems(w, i)
    decreases v, 0, |v.items| - i
  {
    if i < |v.items| {
      EquivPrintsEqual(v.items[i], w.items[i]);
      ItemsPrintEqual(v, w, i + 1);
    }
  }

  lemma {:induction false} FieldsPrintEqual(v: Json, w: Json, keys: seq<Text>)
    requires v.Obj? && Equiv(v, w) && (forall k <- keys :: k in Keys(v.members)) && Proper(v) && Proper(w)
    ensures StableFields(v, keys) == StableFields(w, keys)
    decreases v, 0, |keys|
  {
    if |keys| > 0 {
      EquivPrintsEqual(Lookup(v, keys[0]), Lookup(w, keys[0]));
      FieldsPrintEqual(v, w, keys[1..]);
    }
  }

  /** Two values print equally exactly when they are equal up to key order. */
  lemma PrintsAreCanonical(v: Json, w: Json)
    requires Proper(v) && Proper(w)
    ensures StableStringify(v) == StableStringify(w) <==> Equiv(v, w)
  {
    if StableStringify(v) == StableStringify(w) {
      ReadsBack(v, []);
      ReadsBack(w, []);
      CanonIsComplete(v, w);
    } else if Equiv(v, w) {
      EquivPrintsEqual(v, w);
    }
  }
}
