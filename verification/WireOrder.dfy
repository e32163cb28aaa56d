/**
  The text form of an order on the wire: seven fields separated by commas, numbers in decimal.
  Parsing reads what printing wrote.
 */
module WireOrders {
  import opened Types

  datatype WireOrder = WireOrder(
    id: OrderId,
    instrument: Token,
    side: Side,
    price: Price,
    quantity: Qty,
    kind: OrderType,
    display: Qty)

  // ---- numbers --------------------------------------------------------------------------------------

  predicate IsDigit(c: char) {
    '0' <= c <= '9'
  }

  function DigitOf(n: nat): (c: char)
    requires n < 10
    ensures IsDigit(c) && c as int - '0' as int == n
  {
    ('0' as int + n) as char
  }

  function Decimal(n: nat): (s: string)
    ensures s != [] && AllDigits(s)
  {
    if n < 10 then [DigitOf(n)] else Decimal(n / 10) + [DigitOf(n % 10)]
  }

  predicate AllDigits(s: string) {
    forall i :: 0 <= i < |s| ==> IsDigit(s[i])
  }

  function Value(s: string): nat
    requires AllDigits(s)
  {
    if s == [] then 0 else
    var last := |s| - 1;
    10 * Value(s[..last]) + (s[last] as int - '0' as int)
  }

  lemma {:induction false} ValueOfDecimal(n: nat)
    ensures Value(Decimal(n)) == n
  {
    if n >= 10 {
      ValueOfDecimal(n / 10);
      assert Decimal(n)[..|Decimal(n)| - 1] == Decimal(n / 10);
    }
  }

  predicate IsSpace(c: char) {
    c == ' ' || '\t' <= c <= '\r'
  }

  function SkipSpace(s: string): string {
    if s != [] && IsSpace(s[0]) then SkipSpace(s[1..]) else s
  }

  /** The digits a string starts with. */
  function Digits(s: string): (d: string)
    ensures AllDigits(d) && d <= s
    ensures |d| < |s| ==> !IsDigit(s[|d|])
  {
    if s != [] && IsDigit(s[0]) then [s[0]] + Digits(s[1..]) else []
  }

  /** A 64-bit number read from the front of a string: white space and a sign may come first, anything
      may follow; a minus sign negates modulo 2^64.  No digits, or too large a number, is an error. */
  function ReadNumber(s: string): Option<Price> {
    var t := SkipSpace(s);
    var signed := t != [] && (t[0] == '-' || t[0] == '+');
    var digits := Digits(if signed then t[1..] else t);
    if digits == [] || Value(digits) > MAX_U64 then None
    else if signed && t[0] == '-' then Some((MAX_U64 + 1 - Value(digits)) % (MAX_U64 + 1))
    else Some(Value(digits))
  }

  lemma {:induction false} DigitsOfNumber(s: string)
    requires AllDigits(s)
    ensures Digits(s) == s
  {
    if s != [] {
      DigitsOfNumber(s[1..]);
    }
  }

  lemma ReadPrinted(n: nat)
    requires n <= MAX_U64
    ensures ReadNumber(Decimal(n)) == Some(n)
  {
    DigitsOfNumber(Decimal(n));
    ValueOfDecimal(n);
    assert IsDigit(Decimal(n)[0]);
  }

  /** How a text is made up that starts with a number: white space, perhaps a sign, digits, and then
      anything that is not one more digit. */
  ghost predicate Numeral(s: string, space: string, sign: string, digits: string, rest: string) {
    && s == space + (sign + (digits + rest))
    && (forall i :: 0 <= i < |space| ==> IsSpace(space[i]))
    && (sign == "" || sign == "+" || sign == "-")
    && digits != [] && AllDigits(digits)
    && (rest != [] ==> !IsDigit(rest[0]))
  }

  lemma {:induction false} SkipsSpace(space: string, s: string)
    requires forall i :: 0 <= i < |space| ==> IsSpace(space[i])
    requires s != [] ==> !IsSpace(s[0])
    ensures SkipSpace(space + s) == s
  {
    if space == [] {
      assert space + s == s;
    } else {
      SkipsSpace(space[1..], s);
      assert (space + s)[1..] == space[1..] + s;
    }
  }

  lemma {:induction false} DigitsThenRest(digits: string, rest: string)
    requires AllDigits(digits) && (rest != [] ==> !IsDigit(rest[0]))
    ensures Digits(digits + rest) == digits
  {
    if digits == [] {
      assert digits + rest == rest;
    } else {
      DigitsThenRest(digits[1..], rest);
      assert (digits + rest)[1..] == digits[1..] + rest;
    }
  }

  /** The number read is what the digits say, or with a minus sign its complement modulo 2^64; more than 64
      bits cannot be read. */
  lemma ReadsNumeral(s: string, space: string, sign: string, digits: string, rest: string)
    requires Numeral(s, space, sign, digits, rest)
    ensures ReadNumber(s) ==
      if Value(digits) > MAX_U64 then None
      else if sign == "-" && Value(digits) > 0 then Some(MAX_U64 + 1 - Value(digits))
      else Some(Value(digits))
  {
    hide Value;
    var t := sign + (digits + rest);
    assert t[0] == if sign == "" then digits[0] else sign[0];
    SkipsSpace(space, t);
    DigitsThenRest(digits, rest);
    if sign == "" {
      assert t == digits + rest;
    } else {
      assert t[1..] == digits + rest;
    }
  }

  lemma {:induction false} SpaceBefore(s: string) returns (space: string)
    ensures s == space + SkipSpace(s) && forall i :: 0 <= i < |space| ==> IsSpace(space[i])
  {
    space := [];
    if s != [] && IsSpace(s[0]) {
      var more := SpaceBefore(s[1..]);
      space := [s[0]] + more;
      assert s == [s[0]] + s[1..];
    }
  }

  /** The sign of a text that starts with one. */
  function SignOf(t: string): (sign: string)
    ensures sign <= t && (sign == "" || sign == "+" || sign == "-")
  {
    if t != [] && (t[0] == '-' || t[0] == '+') then [t[0]] else ""
  }

  /** What a number is read from. */
  lemma DigitsReadFrom(s: string)
    requires ReadNumber(s).Some?
    ensures var t := SkipSpace(s); var d := Digits(t[|SignOf(t)|..]); d != [] && Value(d) <= MAX_U64
  {
    hide Value, SkipSpace, Digits;
  }

  lemma PrefixAndRest(p: string, t: string)
    requires p <= t
    ensures t == p + t[|p|..]
  {
  }

  /** Nothing else is read as a number. */
  lemma ReadsOnlyNumerals(s: string) returns (space: string, sign: string, digits: string, rest: string)
    requires ReadNumber(s).Some?
    ensures Numeral(s, space, sign, digits, rest) && Value(digits) <= MAX_U64
  {
    hide Value, SkipSpace, ReadNumber, SignOf, Digits, IsSpace, IsDigit;
    space := SpaceBefore(s);
    var t := SkipSpace(s);
    sign := SignOf(t);
    var u := t[|sign|..];
    digits := Digits(u);
    rest := u[|digits|..];
    DigitsReadFrom(s);
    PrefixAndRest(sign, t);
    PrefixAndRest(digits, u);
  }

  // ---- names ----------------------------------------------------------------------------------------

  function SideText(s: Side): string {
    match s
    case BUY => "BUY"
    case SELL => "SELL"
    case INVALID => "INVALID"
  }

  function TypeText(t: OrderType): string {
    match t
    case LIMIT => "LIMIT"
    case MARKET => "MARKET"
    case IOC => "IOC"
    case FOK => "FOK"
    case ICEBERG => "ICEBERG"
  }

  function SideFromText(s: string): Option<Side> {
    if s == "BUY" then Some(BUY)
    else if s == "SELL" then Some(SELL)
    else None
  }

  function TypeFromText(s: string): Option<OrderType> {
    if s == "LIMIT" then Some(LIMIT)
    else if s == "MARKET" then Some(MARKET)
    else if s == "IOC" then Some(IOC)
    else if s == "FOK" then Some(FOK)
    else if s == "ICEBERG" then Some(ICEBERG)
    else None
  }

  /** A text is read as a side, or as a type, exactly if it is what that side or type is printed as. */
  lemma NamesReadExactly(text: string, s: Side, t: OrderType)
    ensures SideFromText(text) == Some(s) <==> s != INVALID && text == SideText(s)
    ensures TypeFromText(text) == Some(t) <==> text == TypeText(t)
  {
    NamesRoundTrip(s, t);
  }

  lemma NamesRoundTrip(s: Side, t: OrderType)
    ensures SideFromText(SideText(s)) == if s == INVALID then None else Some(s)
    ensures TypeFromText(TypeText(t)) == Some(t)
  {
    assert |"BUY"| == |"IOC"| == |"FOK"| == 3 && |"SELL"| == 4 && |"LIMIT"| == 5 && |"MARKET"| == 6;
    assert |"INVALID"| == |"ICEBERG"| == 7;
    assert "IOC"[0] == 'I' && "FOK"[0] == 'F';
  }

  // ---- fields ---------------------------------------------------------------------------------------

  const FIELDS := 7

  function Comma(s: string): (i: nat)
    ensures i <= |s| && ',' !in s[..i] && (i < |s| ==> s[i] == ',')
  {
    if s == [] || s[0] == ',' then 0 else
    var i := 1 + Comma(s[1..]);
    assert s[..i] == [s[0]] + s[1..][..i - 1];
    i
  }

  /** The first n - 1 fields end at a comma, the last one at the end of the line. */
  function Split(line: string, n: nat): Option<seq<string>>
    requires n > 0
  {
    if n == 1 then Some([line]) else
    var i := Comma(line);
    if i == |line| then None else
    var rest := Split(line[i + 1..], n - 1);
    if rest.None? then None else Some([line[..i]] + rest.value)
  }

  /** Fields already split off in front of the others, if the others could be split. */
  function Prepend(done: seq<string>, rest: Option<seq<string>>): Option<seq<string>> {
    if rest.None? then None else Some(done + rest.value)
  }

  lemma PrependNothing(rest: Option<seq<string>>)
    ensures Prepend([], rest) == rest
  {
    if rest.Some? {
      assert [] + rest.value == rest.value;
    }
  }

  lemma NothingToPrepend(done: seq<string>)
    ensures Prepend(done, None) == None
  {
  }

  lemma Everything(done: seq<string>)
    ensures Prepend(done, Some([])) == Some(done)
  {
    assert done + [] == done;
  }

  lemma PrependOne(done: seq<string>, field: string, rest: Option<seq<string>>)
    ensures Prepend(done + [field], rest) == Prepend(done, Prepend([field], rest))
  {
    if rest.Some? {
      assert (done + [field]) + rest.value == done + ([field] + rest.value);
    }
  }

  /** One field is split off the front. */
  lemma SplitOne(line: string, start: nat, n: nat)
    requires start <= |line| && n > 0
    ensures var end := if n == 1 then |line| else start + Comma(line[start..]);
      && end <= |line|
      && Split(line[start..], n) ==
           (if n == 1 then Prepend([line[start..end]], Some([]))
            else if end == |line| then None else Prepend([line[start..end]], Split(line[end + 1..], n - 1)))
  {
    hide Comma;
    var rest := line[start..];
    var i := Comma(rest);
    if n == 1 {
      assert rest == line[start..|line|];
      Everything([rest]);
    } else if i < |rest| {
      assert rest[..i] == line[start..start + i];
      assert rest[i + 1..] == line[start + i + 1..];
    }
  }

  function Join(fields: seq<string>): string
    requires fields != []
  {
    if |fields| == 1 then fields[0] else fields[0] + "," + Join(fields[1..])
  }

  lemma CommaAfter(a: string, b: string)
    requires ',' !in a
    ensures Comma(a + "," + b) == |a|
  {
    var s := a + "," + b;
    assert s[|a|] == ',';
    assert Comma(s) <= |a|;
  }

  /** Fields without a comma, except perhaps the last one, survive being joined and split. */
  lemma {:induction false} SplitJoined(fields: seq<string>)
    requires fields != []
    requires forall i :: 0 <= i < |fields| - 1 ==> ',' !in fields[i]
    ensures Split(Join(fields), |fields|) == Some(fields)
  {
    hide Comma, Split;
    if |fields| > 1 {
      var line, rest := Join(fields), Join(fields[1..]);
      CommaAfter(fields[0], rest);
      SplitJoined(fields[1..]);
      SplitOne(line, 0, |fields|);
      assert line[0..] == line;
      assert line[0..|fields[0]|] == fields[0];
      assert line[|fields[0]| + 1..] == rest;
      assert fields == [fields[0]] + fields[1..];
    } else {
      SplitWhole(fields[0]);
      assert fields == [fields[0]];
    }
  }

  lemma SplitWhole(line: string)
    ensures Split(line, 1) == Some([line])
  {
  }

  function Commas(s: string): nat {
    if s == [] then 0 else (if s[0] == ',' then 1 else 0) + Commas(s[1..])
  }

  lemma {:induction false} CommasAfterComma(s: string)
    ensures Comma(s) == |s| ==> Commas(s) == 0
    ensures Comma(s) < |s| ==> Commas(s) == 1 + Commas(s[Comma(s) + 1..])
  {
    if s != [] && s[0] != ',' {
      CommasAfterComma(s[1..]);
      if Comma(s) < |s| {
        assert s[Comma(s) + 1..] == s[1..][Comma(s[1..]) + 1..];
      }
    }
  }

  /** A line has n fields if it has at least n - 1 commas; joined, the fields are the line again. */
  lemma {:induction false} SplitExactlyWhen(line: string, n: nat)
    requires n > 0
    ensures Split(line, n).Some? <==> Commas(line) >= n - 1
    ensures Split(line, n).Some? ==> var f := Split(line, n).value;
      |f| == n && Join(f) == line && forall i :: 0 <= i < n - 1 ==> ',' !in f[i]
  {
    hide Comma, Commas;
    CommasAfterComma(line);
    var i := Comma(line);
    if n > 1 && i < |line| {
      var rest := line[i + 1..];
      SplitExactlyWhen(rest, n - 1);
      if Split(rest, n - 1).Some? {
        var f := Split(line, n).value;
        assert f == [line[..i]] + Split(rest, n - 1).value;
        assert f[1..] == Split(rest, n - 1).value;
        assert line == line[..i] + "," + rest;
      }
    }
  }

  // ---- orders ---------------------------------------------------------------------------------------

  function FieldsOf(o: WireOrder): (f: seq<string>)
    ensures |f| == FIELDS
  {
    [Decimal(o.id), Decimal(o.instrument), SideText(o.side), Decimal(o.price), Decimal(o.quantity),
     TypeText(o.kind), Decimal(o.display)]
  }

  function SerializeWireOrder(o: WireOrder): string {
    Join(FieldsOf(o))
  }

  /** A number cut to 32 bits. */
  function Cut(n: Price): Qty {
    n % QTY_MOD
  }

  /** What reading the fields makes of an order: fields are set one by one until one is wrong. */
  function ReadFields(f: seq<string>, out: WireOrder): (bool, WireOrder)
    requires |f| == FIELDS
  {
    var id := ReadNumber(f[0]);
    if id.None? then (false, out) else
    var o1 := out.(id := id.value);
    var instrument := ReadNumber(f[1]);
    if instrument.None? then (false, o1) else
    var o2 := o1.(instrument := Cut(instrument.value));
    var side := SideFromText(f[2]);
    if side.None? then (false, o2) else
    var o3 := o2.(side := side.value);
    var price := ReadNumber(f[3]);
    if price.None? then (false, o3) else
    var o4 := o3.(price := price.value);
    var quantity := ReadNumber(f[4]);
    if quantity.None? then (false, o4) else
    var o5 := o4.(quantity := Cut(quantity.value));
    var kind := TypeFromText(f[5]);
    if kind.None? then (false, o5) else
    var o6 := o5.(kind := kind.value);
    var display := ReadNumber(f[6]);
    if display.None? then (false, o6) else
    (true, o6.(display := Cut(display.value)))
  }

  lemma {:induction false} SplitLength(line: string, n: nat)
    requires n > 0
    ensures Split(line, n).Some? ==> |Split(line, n).value| == n
  {
    if n > 1 && Comma(line) < |line| {
      SplitLength(line[Comma(line) + 1..], n - 1);
    }
  }

  /** The meaning of a line: whether it is an order, and what it leaves in the caller's variable. */
  function Parsed(line: string, out: WireOrder): (bool, WireOrder) {
    var fields := Split(line, FIELDS);
    SplitLength(line, FIELDS);
    if fields.None? then (false, out) else ReadFields(fields.value, out)
  }

  /** The fields of a line: as many as an order has, and only the last one may contain commas. */
  ghost predicate FieldsIn(line: string, f: seq<string>) {
    |f| == FIELDS && Join(f) == line && forall i :: 0 <= i < FIELDS - 1 ==> ',' !in f[i]
  }

  /** The third field is a printed side, the sixth a printed type, and the others start with a number. */
  ghost predicate GoodField(f: seq<string>, i: nat)
    requires |f| == FIELDS && i < FIELDS
  {
    if i == 2 then f[2] == "BUY" || f[2] == "SELL"
    else if i == 5 then f[5] == "LIMIT" || f[5] == "MARKET" || f[5] == "IOC" || f[5] == "FOK" || f[5] == "ICEBERG"
    else ReadNumber(f[i]).Some?
  }

  /** The first n fields are good, and the next one, if there is one, is not. */
  ghost predicate GoodPrefix(f: seq<string>, n: nat)
    requires |f| == FIELDS
  {
    && n <= FIELDS
    && (forall j :: 0 <= j < n ==> GoodField(f, j))
    && (n < FIELDS ==> !GoodField(f, n))
  }

  /** The text starts with a number that is q modulo 2^32. */
  ghost predicate ReadsTo(text: string, q: Qty) {
    ReadNumber(text).Some? && q == Cut(ReadNumber(text).value)
  }

  /** Of the order, what the first n fields say has been read and the rest is as it was. */
  ghost predicate Filled(f: seq<string>, n: nat, before: WireOrder, out: WireOrder)
    requires |f| == FIELDS
  {
    && (if n > 0 then ReadNumber(f[0]) == Some(out.id) else out.id == before.id)
    && (if n > 1 then ReadsTo(f[1], out.instrument) else out.instrument == before.instrument)
    && (if n > 2 then SideText(out.side) == f[2] else out.side == before.side)
    && (if n > 3 then ReadNumber(f[3]) == Some(out.price) else out.price == before.price)
    && (if n > 4 then ReadsTo(f[4], out.quantity) else out.quantity == before.quantity)
    && (if n > 5 then TypeText(out.kind) == f[5] else out.kind == before.kind)
    && (if n > 6 then ReadsTo(f[6], out.display) else out.display == before.display)
  }

  /** A line with these fields is an order if and only if all of them are good; the fields before the first
      bad one are read in any case. */
  ghost predicate FieldsMean(f: seq<string>, before: WireOrder, ok: bool, out: WireOrder)
    requires |f| == FIELDS
  {
    exists n :: GoodPrefix(f, n) && (ok <==> n == FIELDS) && Filled(f, n, before, out)
  }

  /** What a line means: with fewer than six commas nothing, and otherwise what its fields mean. */
  ghost predicate Means(line: string, before: WireOrder, ok: bool, out: WireOrder) {
    if Commas(line) < FIELDS - 1 then !ok && out == before
    else exists f :: FieldsIn(line, f) && FieldsMean(f, before, ok, out)
  }

  lemma NamesAreGood(f: seq<string>)
    requires |f| == FIELDS
    ensures GoodField(f, 2) <==> SideFromText(f[2]).Some?
    ensures GoodField(f, 2) ==> SideText(SideFromText(f[2]).value) == f[2]
    ensures GoodField(f, 5) <==> TypeFromText(f[5]).Some?
    ensures GoodField(f, 5) ==> TypeText(TypeFromText(f[5]).value) == f[5]
  {
  }

  /** The numbers among the fields. */
  lemma NumbersAreGood(f: seq<string>)
    requires |f| == FIELDS
    ensures GoodField(f, 0) <==> ReadNumber(f[0]).Some?
    ensures GoodField(f, 1) <==> ReadNumber(f[1]).Some?
    ensures GoodField(f, 3) <==> ReadNumber(f[3]).Some?
    ensures GoodField(f, 4) <==> ReadNumber(f[4]).Some?
    ensures GoodField(f, 6) <==> ReadNumber(f[6]).Some?
  {
    hide ReadNumber;
  }

  /** What the first bad field means for reading. */
  lemma PrefixReads(f: seq<string>, n: nat)
    requires |f| == FIELDS && GoodPrefix(f, n)
    ensures n <= FIELDS
    ensures (n > 0 ==> ReadNumber(f[0]).Some?) && (n == 0 ==> ReadNumber(f[0]).None?)
    ensures (n > 1 ==> ReadNumber(f[1]).Some?) && (n == 1 ==> ReadNumber(f[1]).None?)
    ensures (n > 2 ==> SideFromText(f[2]).Some? && SideText(SideFromText(f[2]).value) == f[2])
    ensures n == 2 ==> SideFromText(f[2]).None?
    ensures (n > 3 ==> ReadNumber(f[3]).Some?) && (n == 3 ==> ReadNumber(f[3]).None?)
    ensures (n > 4 ==> ReadNumber(f[4]).Some?) && (n == 4 ==> ReadNumber(f[4]).None?)
    ensures (n > 5 ==> TypeFromText(f[5]).Some? && TypeText(TypeFromText(f[5]).value) == f[5])
    ensures n == 5 ==> TypeFromText(f[5]).None?
    ensures (n > 6 ==> ReadNumber(f[6]).Some?) && (n == 6 ==> ReadNumber(f[6]).None?)
  {
    NamesAreGood(f);
    NumbersAreGood(f);
    hide ReadNumber, SideFromText, TypeFromText, SideText, TypeText, GoodField;
  }

  lemma PrefixIsRead(f: seq<string>, n: nat, before: WireOrder)
    requires |f| == FIELDS && GoodPrefix(f, n)
    ensures (ReadFields(f, before).0 <==> n == FIELDS) && Filled(f, n, before, ReadFields(f, before).1)
  {
    hide ReadNumber, SideFromText, TypeFromText, SideText, TypeText, GoodPrefix, Cut;
    PrefixReads(f, n);
  }

  lemma {:induction false} SomePrefix(f: seq<string>, n: nat) returns (m: nat)
    requires |f| == FIELDS && n <= FIELDS && forall j :: 0 <= j < n ==> GoodField(f, j)
    ensures GoodPrefix(f, m)
    decreases FIELDS - n
  {
    hide GoodField;
    m := n;
    if n < FIELDS && GoodField(f, n) {
      m := SomePrefix(f, n + 1);
    }
  }

  lemma FieldsAreRead(f: seq<string>, before: WireOrder)
    requires |f| == FIELDS
    ensures FieldsMean(f, before, ReadFields(f, before).0, ReadFields(f, before).1)
  {
    hide GoodPrefix, Filled, ReadFields;
    var n := SomePrefix(f, 0);
    PrefixIsRead(f, n, before);
  }

  /** The parser does what the line means; the fields of a line are unique. */
  lemma ParsedMeans(line: string, before: WireOrder)
    ensures Means(line, before, Parsed(line, before).0, Parsed(line, before).1)
    ensures forall f, g :: FieldsIn(line, f) && FieldsIn(line, g) ==> f == g
  {
    hide Split, Commas, ReadFields, FieldsMean, Join;
    SplitExactlyWhen(line, FIELDS);
    SplitLength(line, FIELDS);
    if Split(line, FIELDS).Some? {
      assert FieldsIn(line, Split(line, FIELDS).value);
      FieldsAreRead(Split(line, FIELDS).value, before);
    }
    forall f | FieldsIn(line, f)
      ensures Split(line, FIELDS) == Some(f)
    {
      SplitJoined(f);
    }
  }

  /** The parser goes through the line field by field, then through the fields; `before` is what the
      caller's variable holds. */
  method ParseWireOrder(line: string, before: WireOrder) returns (ok: bool, out: WireOrder)
    ensures (ok, out) == Parsed(line, before)
    ensures Means(line, before, ok, out)
  {
    hide Split, Comma, ReadFields, Prepend, Means;
    ParsedMeans(line, before);
    out := before;
    var parts := new string[FIELDS];
    var start := 0;
    var i := 0;
    SplitLength(line, FIELDS);
    PrependNothing(Split(line, FIELDS));
    assert line[0..] == line && parts[..0] == [];
    while i < FIELDS
      invariant 0 <= i <= FIELDS
      invariant i < FIELDS ==> start <= |line|
      invariant i < FIELDS ==> Split(line, FIELDS) == Prepend(parts[..i], Split(line[start..], FIELDS - i))
      invariant i == FIELDS ==> Split(line, FIELDS) == Prepend(parts[..], Some([]))
    {
      SplitOne(line, start, FIELDS - i);
      var end := |line|;
      if i + 1 != FIELDS {
        end := start + Comma(line[start..]);
        if end == |line| {
          NothingToPrepend(parts[..i]);
          return false, before;
        }
      }
      ghost var done := parts[..i];
      parts[i] := line[start..end];
      PrependOne(done, line[start..end], if i + 1 == FIELDS then Some([]) else Split(line[end + 1..], FIELDS - i - 1));
      assert parts[..i + 1] == done + [line[start..end]];
      assert i + 1 == FIELDS ==> parts[..] == parts[..i + 1];
      start := end + 1;
      i := i + 1;
    }
    Everything(parts[..]);
    ok, out := FillOrder(parts, before);
  }

  /** Reads the fields one after the other; the first bad one ends it. */
  method FillOrder(parts: array<string>, before: WireOrder) returns (ok: bool, out: WireOrder)
    requires parts.Length == FIELDS
    ensures (ok, out) == ReadFields(parts[..], before)
  {
    hide ReadNumber, SideFromText, TypeFromText;
    ok, out := false, before;
    var number := ReadNumber(parts[0]);
    if number.None? { return; }
    out := out.(id := number.value);
    number := ReadNumber(parts[1]);
    if number.None? { return; }
    out := out.(instrument := Cut(number.value));
    var maybeSide := SideFromText(parts[2]);
    if maybeSide.None? { return; }
    out := out.(side := maybeSide.value);
    number := ReadNumber(parts[3]);
    if number.None? { return; }
    out := out.(price := number.value);
    number := ReadNumber(parts[4]);
    if number.None? { return; }
    out := out.(quantity := Cut(number.value));
    var maybeType := TypeFromText(parts[5]);
    if maybeType.None? { return; }
    out := out.(kind := maybeType.value);
    number := ReadNumber(parts[6]);
    if number.None? { return; }
    ok, out := true, out.(display := Cut(number.value));
  }

  lemma NoCommaInFields(o: WireOrder)
    ensures forall i :: 0 <= i < FIELDS ==> ',' !in FieldsOf(o)[i]
  {
    assert forall s: string :: AllDigits(s) ==> ',' !in s;
  }

  lemma SplitSerialized(o: WireOrder)
    ensures Split(SerializeWireOrder(o), FIELDS) == Some(FieldsOf(o))
  {
    NoCommaInFields(o);
    SplitJoined(FieldsOf(o));
  }

  /** Round trip: a printed order is read back, whatever the variable held before, exactly when its
      side is BUY or SELL. */
  lemma RoundTrip(o: WireOrder, before: WireOrder)
    ensures Parsed(SerializeWireOrder(o), before).0 <==> o.side != INVALID
    ensures o.side != INVALID ==> Parsed(SerializeWireOrder(o), before) == (true, o)
  {
    hide Decimal, ReadNumber, SideText, TypeText, SideFromText, TypeFromText, Split, Join;
    SplitSerialized(o);
    ReadPrinted(o.id);
    ReadPrinted(o.instrument);
    ReadPrinted(o.price);
    ReadPrinted(o.quantity);
    ReadPrinted(o.display);
    NamesRoundTrip(o.side, o.kind);
  }

  /** Different orders are printed differently. */
  lemma PrintedApart(o: WireOrder, o': WireOrder)
    requires SerializeWireOrder(o) == SerializeWireOrder(o')
    ensures o == o'
  {
    hide Decimal, Value, SideText, TypeText, SideFromText, TypeFromText, Split, Join;
    SplitSerialized(o);
    SplitSerialized(o');
    assert forall i :: 0 <= i < FIELDS ==> FieldsOf(o)[i] == FieldsOf(o')[i];
    ValueOfDecimal(o.id);
    ValueOfDecimal(o'.id);
    ValueOfDecimal(o.instrument);
    ValueOfDecimal(o'.instrument);
    ValueOfDecimal(o.price);
    ValueOfDecimal(o'.price);
    ValueOfDecimal(o.quantity);
    ValueOfDecimal(o'.quantity);
    ValueOfDecimal(o.display);
    ValueOfDecimal(o'.display);
    NamesRoundTrip(o.side, o.kind);
    NamesRoundTrip(o'.side, o'.kind);
  }
}
