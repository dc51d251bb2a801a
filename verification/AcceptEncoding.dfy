/** The Accept-Encoding parser of gziphandler.go: `parseCoding`, `parseEncodings` and
    `acceptsGzip`, against section 14.3 and section 3.9 of RFC 2616. */
module AcceptEncoding {
  import opened Strings

  // ---------------------------------------------------------------- characters

  /** `unicode.IsSpace`, the cut set of `strings.TrimSpace`. */
  predicate IsSpace(c: char) {
    || '\t' <= c <= '\r' || c == ' ' || c == '\U{85}' || c == '\U{A0}' || c == '\U{1680}'
    || '\U{2000}' <= c <= '\U{200A}' || c == '\U{2028}' || c == '\U{2029}' || c == '\U{202F}'
    || c == '\U{205F}' || c == '\U{3000}'
  }

  /** `unicode.ToLower` on every character whose lower case is ASCII: the ASCII capitals, the
      dotted capital I and the Kelvin sign. Other characters cannot become part of "gzip". */
  function Lower(c: char): char {
    if 'A' <= c <= 'Z' then (c as int + 32) as char
    else if c == '\U{130}' then 'i'
    else if c == '\U{212A}' then 'k'
    else c
  }

  function ToLower(s: string): (r: string)
    ensures |r| == |s|
  {
    seq(|s|, i requires 0 <= i < |s| => Lower(s[i]))
  }

  predicate IsDigit(c: char) {
    '0' <= c <= '9'
  }

  // ------------------------------------------------------------------- numbers

  /** A result of `strconv.ParseFloat`: a number, or an error together with the value that is
      returned beside it (0, or an infinity, here any real of its sign beyond 1). */
  datatype Float = Num(value: real) | Bad(value: real)

  function NatOf(digits: string): nat
    requires All(digits, IsDigit)
  {
    if digits == "" then 0
    else 10 * NatOf(digits[..|digits| - 1]) + (digits[|digits| - 1] as int - '0' as int)
  }

  function Pow10(n: nat): (p: real)
    ensures p > 0.0
  {
    if n == 0 then 1.0 else 10.0 * Pow10(n - 1)
  }

  /** Up to this many digits on either side of the point, a decimal neither overflows a
      float64 nor rounds to zero unless it is zero. */
  const MAX_DIGITS := 300

  /** The digits of an unsigned decimal around its point. */
  function Fraction(parts: seq<string>): string {
    if |parts| == 2 then parts[1] else ""
  }

  predicate PlainDecimal(parts: seq<string>) {
    && 1 <= |parts| <= 2
    && All(parts[0], IsDigit) && All(Fraction(parts), IsDigit)
    && |parts[0]| <= MAX_DIGITS && |Fraction(parts)| <= MAX_DIGITS
    && |parts[0]| + |Fraction(parts)| > 0
  }

  function DecimalValue(parts: seq<string>): real
    requires PlainDecimal(parts)
  {
    NatOf(parts[0]) as real + NatOf(Fraction(parts)) as real / Pow10(|Fraction(parts)|)
  }

  /** `strconv.ParseFloat`. Signed plain decimals are parsed here; exponents, hexadecimal
      floats, very long digit strings and malformed text are left to `other`, which is arbitrary. */
  function ParseFloat(s: string, other: string -> Float): Float {
    var signed := s != "" && (s[0] == '-' || s[0] == '+');
    var parts := Split(if signed then s[1..] else s, '.');
    if !PlainDecimal(parts) then other(s)
    else if signed && s[0] == '-' then Num(0.0 - DecimalValue(parts))
    else Num(DecimalValue(parts))
  }

  function Clamp(q: real): real {
    if q < 0.0 then 0.0 else if q > 1.0 then 1.0 else q
  }

  // --------------------------------------------------------------- one element

  /** What one semicolon part says about the quality: nothing, or a parsed number. */
  datatype Weight = NoWeight | Weight(q: Float)

  function WeightOf(part: string, other: string -> Float): Weight {
    var trimmed := Trim(part, IsSpace);
    if HasPrefix(trimmed, "q=") then Weight(ParseFloat(trimmed[2..], other)) else NoWeight
  }

  /** The coding is the lower-cased first part. */
  function Coding(element: string): string {
    ToLower(Trim(Split(element, ';')[0], IsSpace))
  }

  /** The weights of the parts after the coding. */
  function Weights(element: string, other: string -> Float): seq<Weight> {
    var parts := Split(element, ';');
    seq(|parts| - 1, i requires 0 <= i < |parts| - 1 => WeightOf(parts[i + 1], other))
  }

  /** The quality is fixed by the final part alone: it is 1 unless that part is a weight. */
  function Quality(ws: seq<Weight>): real {
    if ws != [] && ws[|ws| - 1].Weight? then Clamp(ws[|ws| - 1].q.value) else 1.0
  }

  /** The last weight, if any, is malformed; errors of earlier ones are forgotten. */
  predicate LastWeightBad(ws: seq<Weight>) {
    exists i :: 0 <= i < |ws| && ws[i].Weight? && ws[i].q.Bad?
             && forall j :: i < j < |ws| ==> ws[j].NoWeight?
  }

  /** What `parseCoding` makes of an element. */
  datatype Element = Element(coding: string, quality: real, fails: bool)

  function ElementOf(s: string, other: string -> Float): Element {
    var ws := Weights(s, other);
    Element(Coding(s), Quality(ws), Coding(s) == "" || LastWeightBad(ws))
  }

  lemma WeightStep(ws: seq<Weight>, w: Weight)
    ensures LastWeightBad(ws + [w]) == if w.Weight? then w.q.Bad? else LastWeightBad(ws)
    ensures Quality(ws + [w]) == if w.Weight? then Clamp(w.q.value) else 1.0
  {
    var ws' := ws + [w];
    assert ws'[|ws|] == w;
    assert forall i :: 0 <= i < |ws| ==> ws'[i] == ws[i];
    if w.NoWeight? && LastWeightBad(ws) {
      var i :| 0 <= i < |ws| && ws[i].Weight? && ws[i].q.Bad? && forall j :: i < j < |ws| ==> ws[j].NoWeight?;
      assert ws'[i] == ws[i];
    }
  }

  /** `parseCoding`. */
  method ParseCoding(s: string, other: string -> Float)
    returns (coding: string, qvalue: real, err: bool)
    ensures Element(coding, qvalue, err) == ElementOf(s, other)
  {
    hide Split, ParseFloat, Trim, ToLower, LastWeightBad, Quality;
    coding, qvalue, err := "", 0.0, false;
    var parts := Split(s, ';');
    ghost var ws := Weights(s, other);
    assert !LastWeightBad(ws[..0]) && Quality(ws[..0]) == 1.0 by {
      NoWeights();
    }
    for n := 0 to |parts|
      invariant n == 0 ==> !err
      invariant n > 0 ==> coding == Coding(s)
      invariant n > 0 ==> err == LastWeightBad(ws[..n - 1]) && qvalue == Quality(ws[..n - 1])
    {
      var part := Trim(parts[n], IsSpace);
      qvalue := 1.0;
      if n == 0 {
        coding := ToLower(part);
      } else {
        if HasPrefix(part, "q=") {
          var f := ParseFloat(part[2..], other);
          qvalue, err := f.value, f.Bad?;
          if qvalue < 0.0 {
            qvalue := 0.0;
          } else if qvalue > 1.0 {
            qvalue := 1.0;
          }
        }
        assert ws[n - 1] == WeightOf(parts[n], other);
        WeightStep(ws[..n - 1], ws[n - 1]);
        assert ws[..n] == ws[..n - 1] + [ws[n - 1]];
      }
    }
    assert ws[..|parts| - 1] == ws;
    if coding == "" {
      err := true;
    }
  }

  lemma NoWeights()
    ensures !LastWeightBad([]) && Quality([]) == 1.0
  {
  }

  // ----------------------------------------------------------- the whole header

  type Codings = map<string, real>

  /** The comma-separated elements of a header. */
  function Elements(header: string, other: string -> Float): seq<Element> {
    var texts := Split(header, ',');
    seq(|texts|, i requires 0 <= i < |texts| => ElementOf(texts[i], other))
  }

  /** `es[i]` is the last error-free element for coding `k`. */
  predicate LastFor(es: seq<Element>, k: string, i: nat) {
    && i < |es| && !es[i].fails && es[i].coding == k
    && forall j :: i < j < |es| && es[j].coding == k ==> es[j].fails
  }

  /** The map holds, for each coding, the quality of its last error-free element, and nothing else. */
  ghost predicate Describes(c: Codings, es: seq<Element>) {
    && (forall i: nat, k :: LastFor(es, k, i) ==> k in c && c[k] == es[i].quality)
    && (forall k :: k in c ==> exists i: nat :: LastFor(es, k, i))
  }

  lemma LastForStep(es: seq<Element>, e: Element, k: string, i: nat)
    ensures LastFor(es + [e], k, i) <==>
            if !e.fails && e.coding == k then i == |es| else LastFor(es, k, i)
  {
    var es' := es + [e];
    assert es'[|es|] == e;
    assert forall j :: 0 <= j < |es| ==> es'[j] == es[j];
  }

  /** Adding one element to a described list. */
  lemma DescribesStep(c: Codings, es: seq<Element>, e: Element)
    requires Describes(c, es)
    ensures Describes(if e.fails then c else c[e.coding := e.quality], es + [e])
  {
    var c', es' := if e.fails then c else c[e.coding := e.quality], es + [e];
    forall i: nat, k | LastFor(es', k, i)
      ensures k in c' && c'[k] == es'[i].quality
    {
      LastForStep(es, e, k, i);
    }
    forall k | k in c'
      ensures exists i: nat :: LastFor(es', k, i)
    {
      if !e.fails && k == e.coding {
        LastForStep(es, e, k, |es|);
      } else {
        var i: nat :| LastFor(es, k, i);
        LastForStep(es, e, k, i);
      }
    }
  }

  /** `parseEncodings`; the error is reduced to whether there is one. */
  method ParseEncodings(s: string, other: string -> Float) returns (c: Codings, err: bool)
    ensures Describes(c, Elements(s, other))
    ensures err <==> exists i :: 0 <= i < |Elements(s, other)| && Elements(s, other)[i].fails
  {
    hide Split, ElementOf, Describes;
    c, err := map[], false;
    var texts := Split(s, ',');
    ghost var es := Elements(s, other);
    NothingDescribed();
    for n := 0 to |texts|
      invariant Describes(c, es[..n])
      invariant err <==> exists i :: 0 <= i < n && es[i].fails
    {
      DescribesStep(c, es[..n], es[n]);
      assert es[..n + 1] == es[..n] + [es[n]];
      var coding, qvalue, e := ParseCoding(texts[n], other);
      assert es[n] == Element(coding, qvalue, e);
      if e {
        err := true;
      } else {
        c := c[coding := qvalue];
      }
    }
    assert es[..|texts|] == es;
  }

  lemma NothingDescribed()
    ensures Describes(map[], [])
  {
  }

  /** `acceptsGzip`: a compressed answer is allowed exactly when the last error-free gzip
      element has a positive quality. */
  method AcceptsGzip(header: string, other: string -> Float) returns (yes: bool)
    ensures yes <==> exists i: nat :: LastFor(Elements(header, other), "gzip", i)
                                   && Elements(header, other)[i].quality > 0.0
  {
    hide Elements;
    var c, _ := ParseEncodings(header, other);
    yes := "gzip" in c && c["gzip"] > 0.0;
  }

  // ------------------------------------------------ headers written by the RFC

  /** A qvalue of section 3.9 of RFC 2616: "0" or "1", an optional point and up to three digits. */
  datatype QValue = QValue(one: bool, point: bool, digits: string) {
    predicate Valid() {
      && |digits| <= 3 && All(digits, IsDigit)
      && (digits != "" ==> point)
      && (one ==> All(digits, c => c == '0'))
    }

    function Text(): string {
      (if one then "1" else "0") + (if point then "." else "") + digits
    }

    function Digit(i: nat): int {
      if i < |digits| then digits[i] as int - '0' as int else 0
    }

    function Thousandths(): int {
      (if one then 1000 else 0) + 100 * Digit(0) + 10 * Digit(1) + Digit(2)
    }
  }

  /** One element of the header: a coding, padding, and an optional quality. */
  datatype Item =
    | Bare(pre: string, coding: string, post: string)
    | Weighted(pre: string, coding: string, post: string, pre2: string, q: QValue, post2: string)
  {
    ghost predicate Valid() {
      && coding != ""
      && (forall c :: c in coding ==> !IsSpace(c) && c != ',' && c != ';')
      && Blank(pre) && Blank(post)
      && (Weighted? ==> Blank(pre2) && Blank(post2) && q.Valid())
    }

    function Text(): string {
      match this
      case Bare(_, _, _) => pre + coding + post
      case Weighted(_, _, _, _, _, _) => (pre + coding + post) + [';'] + (pre2 + ("q=" + q.Text()) + post2)
    }

    /** The coding in lower case: codings are case-insensitive. */
    function Key(): string {
      ToLower(coding)
    }

    function Value(): real {
      if Bare? then 1.0 else q.Thousandths() as real / 1000.0
    }
  }

  predicate Blank(s: string) {
    All(s, IsSpace)
  }

  lemma DigitFree(s: string, c: char)
    requires All(s, IsDigit) && !IsDigit(c)
    ensures c !in s
  {
  }

  /** The value of up to three digits, written out. */
  lemma ShortNat(digits: string)
    requires |digits| <= 3 && All(digits, IsDigit)
    ensures var q := QValue(false, true, digits);
            NatOf(digits) == match |digits|
                             case 0 => 0
                             case 1 => q.Digit(0)
                             case 2 => 10 * q.Digit(0) + q.Digit(1)
                             case _ => 100 * q.Digit(0) + 10 * q.Digit(1) + q.Digit(2)
  {
    if |digits| > 0 {
      var init := digits[..|digits| - 1];
      ShortNat(init);
    }
  }

  /** The digits after the point are worth their thousandths. */
  lemma DigitsWorth(digits: string)
    requires |digits| <= 3 && All(digits, IsDigit)
    ensures NatOf(digits) as real / Pow10(|digits|)
         == QValue(false, true, digits).Thousandths() as real / 1000.0
  {
    ShortNat(digits);
    hide NatOf;
    assert Pow10(0) == 1.0 && Pow10(1) == 10.0 && Pow10(2) == 100.0 && Pow10(3) == 1000.0;
    hide Pow10;
  }

  /** The text of a qvalue splits at its point. */
  lemma QValueParts(q: QValue)
    requires q.Valid()
    ensures Split(q.Text(), '.') == if q.point then [if q.one then "1" else "0", q.digits]
                                    else [if q.one then "1" else "0"]
  {
    var whole := if q.one then "1" else "0";
    SplitOne(whole, '.');
    if q.point {
      DigitFree(q.digits, '.');
      SplitOne(q.digits, '.');
      SplitAppend(whole, q.digits, '.');
      assert q.Text() == whole + ['.'] + q.digits;
    } else {
      assert q.Text() == whole;
    }
  }

  lemma QValueParses(q: QValue, other: string -> Float)
    requires q.Valid()
    ensures 0 <= q.Thousandths() <= 1000
    ensures ParseFloat(q.Text(), other) == Num(q.Thousandths() as real / 1000.0)
    ensures PlainDecimal(Split(q.Text(), '.'))
    ensures DecimalValue(Split(q.Text(), '.')) == q.Thousandths() as real / 1000.0
  {
    QValueParts(q);
    DigitsWorth(q.digits);
    ShortNat(if q.one then "1" else "0");
    hide Split, NatOf, Pow10;
  }

  /** A negative quality parses to its negative value, which counts as 0. */
  lemma NegativeQuality(q: QValue, other: string -> Float)
    requires q.Valid()
    ensures ParseFloat("-" + q.Text(), other) == Num(0.0 - q.Thousandths() as real / 1000.0)
    ensures Clamp(ParseFloat("-" + q.Text(), other).value) == 0.0
  {
    var s := "-" + q.Text();
    assert s[1..] == q.Text();
    QValueParses(q, other);
    hide Split, PlainDecimal, DecimalValue;
    assert ParseFloat(s, other) == Num(0.0 - DecimalValue(Split(q.Text(), '.')));
  }

  /** A plus sign changes nothing. */
  lemma PositiveQuality(q: QValue, other: string -> Float)
    requires q.Valid()
    ensures ParseFloat("+" + q.Text(), other) == Num(q.Thousandths() as real / 1000.0)
  {
    var s := "+" + q.Text();
    assert s[1..] == q.Text();
    QValueParses(q, other);
    hide Split, PlainDecimal, DecimalValue;
    assert ParseFloat(s, other) == Num(DecimalValue(Split(q.Text(), '.')));
  }

  /** A text with a second point, or without any digit, is no plain decimal. */
  lemma NoPlainDecimal(s: string, other: string -> Float)
    requires Count(s, '.') > 1 || forall i :: 0 <= i < |s| ==> !IsDigit(s[i])
    ensures ParseFloat(s, other) == other(s)
  {
    var signed := s != "" && (s[0] == '-' || s[0] == '+');
    var number := if signed then s[1..] else s;
    SplitJoin(number, '.');
    hide Split, Join, PlainDecimal;
    PlainHasDigit(number, Split(number, '.'));
  }

  lemma PlainHasDigit(number: string, parts: seq<string>)
    requires Join(parts, '.') == number
    ensures PlainDecimal(parts) ==> |parts| <= 2 && exists i :: 0 <= i < |number| && IsDigit(number[i])
  {
    if PlainDecimal(parts) {
      if parts[0] != "" {
        assert number[0] == parts[0][0] && IsDigit(parts[0][0]);
      } else {
        assert Join(parts[1..], '.') == parts[1];
        assert number == "" + ['.'] + parts[1];
        assert number[1] == parts[1][0] && IsDigit(parts[1][0]);
      }
    }
  }

  lemma PaddedFree(pre: string, core: string, post: string, c: char)
    requires Blank(pre) && Blank(post) && c !in core && (c == ';' || c == ',')
    ensures c !in pre + core + post
  {
  }

  lemma QValueChars(q: QValue)
    requires q.Valid()
    ensures ';' !in "q=" + q.Text() && ',' !in "q=" + q.Text()
    ensures !IsSpace(("q=" + q.Text())[0]) && !IsSpace(("q=" + q.Text())[|q.Text()| + 1])
  {
    DigitFree(q.digits, ';');
    DigitFree(q.digits, ',');
  }

  /** Every generated element parses to its coding and its value, without error. */
  lemma BareParses(it: Item, other: string -> Float)
    requires it.Valid() && it.Bare?
    ensures ElementOf(it.Text(), other) == Element(it.Key(), it.Value(), false)
    ensures ',' !in it.Text()
  {
    PaddedFree(it.pre, it.coding, it.post, ';');
    PaddedFree(it.pre, it.coding, it.post, ',');
    SplitOne(it.Text(), ';');
    TrimPadded(it.pre, it.coding, it.post, IsSpace);
    hide Split, Trim;
  }

  /** An element made of a coding and one more part. */
  lemma TwoParts(name: string, weight: string, other: string -> Float)
    requires ';' !in name && ';' !in weight
    ensures Coding(name + [';'] + weight) == ToLower(Trim(name, IsSpace))
    ensures Weights(name + [';'] + weight, other) == [WeightOf(weight, other)]
  {
    hide Split, Trim, WeightOf, ToLower;
    SplitOne(name, ';');
    SplitOne(weight, ';');
    SplitAppend(name, weight, ';');
    assert Split(name + [';'] + weight, ';') == [name, weight];
  }

  lemma WeightParses(pre: string, q: QValue, post: string, other: string -> Float)
    requires Blank(pre) && Blank(post) && q.Valid()
    ensures WeightOf(pre + ("q=" + q.Text()) + post, other) == Weight(Num(q.Thousandths() as real / 1000.0))
    ensures 0 <= q.Thousandths() <= 1000
  {
    QValueChars(q);
    TrimPadded(pre, "q=" + q.Text(), post, IsSpace);
    assert ("q=" + q.Text())[2..] == q.Text();
    QValueParses(q, other);
    hide Trim, ParseFloat;
  }

  lemma WeightedParses(it: Item, other: string -> Float)
    requires it.Valid() && it.Weighted?
    ensures ElementOf(it.Text(), other) == Element(it.Key(), it.Value(), false)
    ensures ',' !in it.Text()
  {
    hide Coding, Weights, WeightOf, Trim, LastWeightBad, Quality, IsSpace, ToLower;
    var name, weight := it.pre + it.coding + it.post, it.pre2 + ("q=" + it.q.Text()) + it.post2;
    QValueChars(it.q);
    assert it.Key() != "";
    PaddedFree(it.pre, it.coding, it.post, ';');
    PaddedFree(it.pre, it.coding, it.post, ',');
    PaddedFree(it.pre2, "q=" + it.q.Text(), it.post2, ';');
    PaddedFree(it.pre2, "q=" + it.q.Text(), it.post2, ',');
    TwoParts(name, weight, other);
    TrimPadded(it.pre, it.coding, it.post, IsSpace);
    WeightParses(it.pre2, it.q, it.post2, other);
    WeightStep([], WeightOf(weight, other));
    assert [] + [WeightOf(weight, other)] == [WeightOf(weight, other)];
  }

  function Texts(items: seq<Item>): seq<string> {
    seq(|items|, i requires 0 <= i < |items| => items[i].Text())
  }

  /** The generated header: the elements with commas between them. */
  function Format(items: seq<Item>): string {
    Join(Texts(items), ',')
  }

  ghost predicate ValidEach(items: seq<Item>) {
    items != [] && forall i :: 0 <= i < |items| ==> items[i].Valid()
  }

  ghost predicate ValidItems(items: seq<Item>) {
    ValidEach(items) && forall i, j :: 0 <= i < j < |items| ==> items[i].Key() != items[j].Key()
  }

  /** What the header was generated from, as a map. */
  function Table(items: seq<Item>): Codings
    requires forall i, j :: 0 <= i < j < |items| ==> items[i].Key() != items[j].Key()
  {
    map i | 0 <= i < |items| :: items[i].Key() := items[i].Value()
  }

  lemma FormattedElements(items: seq<Item>, other: string -> Float)
    requires ValidEach(items)
    ensures var es := Elements(Format(items), other);
            |es| == |items| &&
            forall i :: 0 <= i < |items| ==> es[i] == Element(items[i].Key(), items[i].Value(), false)
  {
    hide Split, Join, ElementOf;
    forall i | 0 <= i < |items|
      ensures ',' !in Texts(items)[i]
      ensures ElementOf(Texts(items)[i], other) == Element(items[i].Key(), items[i].Value(), false)
    {
      if items[i].Bare? {
        BareParses(items[i], other);
      } else {
        WeightedParses(items[i], other);
      }
    }
    JoinSplit(Texts(items), ',');
  }

  /** A map that describes one error-free element per item is the table of the items. */
  lemma DescribedTable(items: seq<Item>, c: Codings, es: seq<Element>)
    requires forall i, j :: 0 <= i < j < |items| ==> items[i].Key() != items[j].Key()
    requires |es| == |items|
    requires forall i :: 0 <= i < |items| ==> es[i] == Element(items[i].Key(), items[i].Value(), false)
    requires Describes(c, es)
    ensures c == Table(items)
  {
    hide Item.Value, Item.Key;
    forall i | 0 <= i < |items|
      ensures items[i].Key() in c && c[items[i].Key()] == items[i].Value()
    {
      assert LastFor(es, es[i].coding, i);
    }
    forall k | k in c
      ensures k in Table(items)
    {
      var i: nat :| LastFor(es, k, i);
      assert es[i].coding == items[i].Key();
    }
  }

  /** Round trip: parsing a generated header with codings that differ in more than case gives back exactly the map it
      was generated from, with no error. `c` is any map that meets the contract of `ParseEncodings`. */
  lemma RoundTrip(items: seq<Item>, c: Codings, other: string -> Float)
    requires ValidItems(items)
    requires Describes(c, Elements(Format(items), other))
    ensures c == Table(items)
    ensures forall i :: 0 <= i < |Elements(Format(items), other)| ==> !Elements(Format(items), other)[i].fails
  {
    hide Elements, Format;
    FormattedElements(items, other);
    DescribedTable(items, c, Elements(Format(items), other));
  }

  // ------------------------------------------------------------ the letters themselves

  const CAPITALS := "ABCDEFGHIJKLMNOPQRSTUVWXYZ"
  const SMALL := "abcdefghijklmnopqrstuvwxyz"

  /** Lower case, by the alphabet: capitals become the small letter of the same place, and every other ASCII
      character stays. */
  lemma LowerByAlphabet(c: char)
    requires c < '\U{80}'
    ensures if c in CAPITALS then exists i :: 0 <= i < 26 && CAPITALS[i] == c && SMALL[i] == Lower(c) else Lower(c) == c
  {
    AlphabetByPlace();
    if 'A' <= c <= 'Z' {
      var i := c as int - 'A' as int;
      assert CAPITALS[i] == c && SMALL[i] == Lower(c);
    }
    assert c in CAPITALS ==> 'A' <= c <= 'Z';
  }

  lemma AlphabetByPlace()
    ensures forall i :: 0 <= i < 26 ==> CAPITALS[i] as int == 'A' as int + i && SMALL[i] as int == 'a' as int + i
  {
  }

  /** The characters that padding is made of, all of them. */
  lemma SpacesInFull(c: char)
    ensures IsSpace(c) <==>
            || c in "\t\n\U{0B}\U{0C}\r \U{85}\U{A0}\U{1680}\U{2028}\U{2029}\U{202F}\U{205F}\U{3000}"
            || c in "\U{2000}\U{2001}\U{2002}\U{2003}\U{2004}\U{2005}\U{2006}\U{2007}\U{2008}\U{2009}\U{200A}"
  {
  }

  /** "gzip" in any case, letter by letter; the dotted capital I is a capital i, too. */
  predicate SpelledGzip(s: string) {
    |s| == 4 && s[0] in "gG" && s[1] in "zZ" && s[2] in "iI\U{130}" && s[3] in "pP"
  }

  lemma GzipInAnyCase(s: string)
    ensures ToLower(s) == "gzip" <==> SpelledGzip(s)
  {
    if SpelledGzip(s) {
      assert ToLower(s) == "gzip";
    }
    if ToLower(s) == "gzip" {
      assert ToLower(s)[0] == Lower(s[0]) && ToLower(s)[1] == Lower(s[1]);
      assert ToLower(s)[2] == Lower(s[2]) && ToLower(s)[3] == Lower(s[3]);
    }
  }

  /** The last item that is spelled "gzip" allows it: it has no quality, or one above 0. */
  predicate AllowsGzip(items: seq<Item>, i: nat) {
    && i < |items| && SpelledGzip(items[i].coding)
    && (forall j :: i < j < |items| ==> !SpelledGzip(items[j].coding))
    && (items[i].Weighted? ==> items[i].q.Thousandths() > 0)
  }

  /** So for every generated header, also with repeated codings, gzip is accepted exactly if its last mention allows
      it. The left side is the result of `AcceptsGzip`. */
  lemma GzipAcceptedExactly(items: seq<Item>, other: string -> Float)
    requires ValidEach(items)
    ensures var es := Elements(Format(items), other);
            (exists i: nat :: LastFor(es, "gzip", i) && es[i].quality > 0.0) <==> (exists i: nat :: AllowsGzip(items, i))
  {
    hide Elements, Format, SpelledGzip, ToLower, QValue.Thousandths, Item.Text;
    var es := Elements(Format(items), other);
    FormattedElements(items, other);
    forall i | 0 <= i < |items|
      ensures es[i].coding == "gzip" <==> SpelledGzip(items[i].coding)
    {
      GzipInAnyCase(items[i].coding);
    }
    assert forall i: nat :: AllowsGzip(items, i) <==> LastFor(es, "gzip", i) && es[i].quality > 0.0;
  }

  const REFUSED := Weighted("", "gzip", "", "", QValue(false, false, ""), "")
  const HALF := Weighted(" ", "gzip", " ", " ", QValue(false, true, "5"), "")

  lemma RefusedText()
    ensures REFUSED.Text() == "gzip;q=0" && REFUSED.Value() == 0.0
  {
  }

  lemma HalfText()
    ensures HALF.Text() == " gzip ; q=0.5" && HALF.Value() == 0.5
  {
  }

  lemma ExamplesValid()
    ensures REFUSED.Valid() && HALF.Valid() && REFUSED.Key() == "gzip" && HALF.Key() == "gzip"
  {
    GzipInAnyCase("gzip");
    hide ToLower;
  }

  /** Two elements in full. */
  lemma PlainExamples(other: string -> Float)
    ensures ElementOf("gzip;q=0", other) == Element("gzip", 0.0, false)
    ensures ElementOf(" gzip ; q=0.5", other) == Element("gzip", 0.5, false)
  {
    hide Item.Text, Item.Value, Item.Valid, Item.Key, ElementOf;
    RefusedText();
    HalfText();
    ExamplesValid();
    WeightedParses(REFUSED, other);
    WeightedParses(HALF, other);
  }

  /** A final quality part decides: its value counts, but no less than 0 and no more than 1. */
  lemma FinalWeightDecides(element: string, part: string, other: string -> Float)
    requires ';' !in part && WeightOf(part, other).Weight?
    ensures var e, v := ElementOf(element + [';'] + part, other), WeightOf(part, other).q;
            && e.coding == Coding(element) && 0.0 <= e.quality <= 1.0
            && (0.0 <= v.value <= 1.0 ==> e.quality == v.value)
            && (v.value < 0.0 ==> e.quality == 0.0) && (v.value > 1.0 ==> e.quality == 1.0)
            && (e.fails <==> Coding(element) == "" || v.Bad?)
  {
    hide Split, Trim, WeightOf, ToLower, LastWeightBad, Quality;
    SplitOne(part, ';');
    SplitAppend(element, part, ';');
    WeightStep(Weights(element, other), WeightOf(part, other));
    assert Weights(element + [';'] + part, other) == Weights(element, other) + [WeightOf(part, other)];
  }

  /** The empty header, which no list of items generates, is one element without a coding. */
  lemma EmptyHeaderFails(other: string -> Float)
    ensures |Elements("", other)| == 1 && Elements("", other)[0].fails
  {
    assert Split("", ';') == [""];
    assert Trim("", IsSpace) == "";
  }

  /** A parameter after the quality resets it to 1, whatever the quality was: "gzip;q=0;x" accepts gzip. */
  lemma TrailingParameterResets(element: string, part: string, other: string -> Float)
    requires ';' !in part && WeightOf(part, other).NoWeight?
    ensures var e := ElementOf(element + [';'] + part, other);
            e.quality == 1.0 && e.coding == Coding(element) && e.fails == ElementOf(element, other).fails
  {
    hide Split, Trim, WeightOf, ToLower, LastWeightBad, Quality;
    SplitOne(part, ';');
    SplitAppend(element, part, ';');
    WeightStep(Weights(element, other), NoWeight);
    assert Weights(element + [';'] + part, other) == Weights(element, other) + [NoWeight];
  }
}
