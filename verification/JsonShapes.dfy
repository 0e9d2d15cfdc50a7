/** The structure of the catalog's JSON. Every parse function of the reader
    (src/metadata.cpp:65-83, 195-594) has the same form, an opening bracket, items separated by
    commas and a closing bracket; they differ in the fields they know and in what they expect
    there, which is a shape. The writer (src/metadata.cpp:37-44, 693-885) lays the same shapes
    out with fixed white space. */
module JsonShapes {
  import opened Wrappers
  import opened JsonText

  /** White space before the first item, after each comma, and before the closing bracket. */
  datatype Layout = Layout(lead: string, between: string, tail: string)

  datatype Field = Field(name: string, shape: Shape)

  datatype Shape =
    | StringShape
    | NumberShape
    | BoolShape
    | ArrayShape(layout: Layout, element: Shape)
    | ObjectShape(layout: Layout, fields: seq<Field>)
    | MapShape(layout: Layout, element: Shape)

  datatype Item =
    | Element(value: Json)
    | Known(field: nat, value: Json)
    | Entry(key: string, value: Json)
    | Skipped

  datatype Json =
    | Text(text: string)
    | Number(number: nat)
    | Flag(flag: bool)
    | Group(items: seq<Item>)

  predicate IsGroup(shape: Shape) {
    shape.ArrayShape? || shape.ObjectShape? || shape.MapShape?
  }

  function Open(shape: Shape): char {
    if shape.ArrayShape? then '[' else '{'
  }

  function Close(shape: Shape): char {
    if shape.ArrayShape? then ']' else '}'
  }

  // -------------------------------------------------------------------- parsing

  /** The field with this name, or the number of fields. */
  function FieldIndex(fields: seq<Field>, name: string): (n: nat)
    ensures n <= |fields| && (n < |fields| ==> fields[n].name == name)
    ensures forall i :: 0 <= i < n ==> fields[i].name != name
  {
    if fields == [] || fields[0].name == name then 0 else 1 + FieldIndex(fields[1..], name)
  }

  /** Any value, ignored. */
  function Skip(s: string): (r: Result<string, JsonError>)
    ensures r.Ok? ==> |r.value| < |s|
    decreases |s|, 0
  {
    var t := SkipSpace(s);
    if t == "" then Err(Malformed)
    else if t[0] == '\"' then
      (match StringToken(t)
       case Err(e) => Err(e)
       case Ok((_, rest)) => Ok(rest))
    else if t[0] == '{' || t[0] == '[' then
      var close := if t[0] == '{' then '}' else ']';
      match Consume(t[1..], close)
      case Some(rest) => Ok(rest)
      case None => SkipItems(close, t[1..])
    else
      var n := BareRun(t);
      if n == 0 then Err(Malformed) else Ok(t[n..])
  }

  function BareRun(s: string): (n: nat)
    ensures n <= |s|
  {
    if s == "" || IsSpace(s[0]) || s[0] in {',', '}', ']'} then 0 else 1 + BareRun(s[1..])
  }

  function SkipItems(close: char, s: string): (r: Result<string, JsonError>)
    ensures r.Ok? ==> |r.value| < |s|
    decreases |s|, 2
  {
    match SkipItem(close, s)
    case Err(e) => Err(e)
    case Ok(u) =>
      match Consume(u, ',')
      case Some(v) => SkipItems(close, v)
      case None =>
        match Consume(u, close)
        case Some(v) => Ok(v)
        case None => Err(Malformed)
  }

  function SkipItem(close: char, s: string): (r: Result<string, JsonError>)
    ensures r.Ok? ==> |r.value| < |s|
    decreases |s|, 1
  {
    match SkipKey(close, s)
    case Err(e) => Err(e)
    case Ok(t) => Skip(t)
  }

  function SkipKey(close: char, s: string): (r: Result<string, JsonError>)
    ensures r.Ok? ==> |r.value| <= |s|
  {
    if close == ']' then Ok(s)
    else match Key(s)
      case Err(e) => Err(e)
      case Ok((_, rest)) => Ok(rest)
  }

  /** A member's name and colon. */
  function Key(s: string): (r: Parsed<string>)
    ensures r.Ok? ==> |r.value.1| < |s|
  {
    match StringToken(s)
    case Err(e) => Err(e)
    case Ok((key, t)) =>
      match Consume(t, ':')
      case Some(u) => Ok((key, u))
      case None => Err(Malformed)
  }

  function Parse(shape: Shape, s: string): (r: Parsed<Json>)
    ensures r.Ok? ==> |r.value.1| < |s|
    decreases |s|, 0
  {
    match shape
    case StringShape => OfText(StringToken(s))
    case NumberShape => OfNumber(NumberToken(s))
    case BoolShape => OfFlag(BoolToken(s))
    case _ =>
      match Consume(s, Open(shape))
      case None => Err(Malformed)
      case Some(t) =>
        match Consume(t, Close(shape))
        case Some(u) => Ok((Group([]), u))
        case None => OfItems(Items(shape, t))
  }

  function OfText(r: Parsed<string>): Parsed<Json> {
    match r
    case Err(e) => Err(e)
    case Ok((x, rest)) => Ok((Text(x), rest))
  }

  function OfNumber(r: Parsed<nat>): Parsed<Json> {
    match r
    case Err(e) => Err(e)
    case Ok((x, rest)) => Ok((Number(x), rest))
  }

  function OfFlag(r: Parsed<bool>): Parsed<Json> {
    match r
    case Err(e) => Err(e)
    case Ok((x, rest)) => Ok((Flag(x), rest))
  }

  function OfItems(r: Parsed<seq<Item>>): Parsed<Json> {
    match r
    case Err(e) => Err(e)
    case Ok((x, rest)) => Ok((Group(x), rest))
  }

  /** Items up to the closing bracket. */
  function Items(shape: Shape, s: string): (r: Parsed<seq<Item>>)
    requires IsGroup(shape)
    ensures r.Ok? ==> |r.value.1| < |s|
    decreases |s|, 2
  {
    match ParseItem(shape, s)
    case Err(e) => Err(e)
    case Ok((item, t)) =>
      match Consume(t, ',')
      case Some(u) =>
        (match Items(shape, u)
         case Err(e) => Err(e)
         case Ok((items, rest)) => Ok(([item] + items, rest)))
      case None =>
        match Consume(t, Close(shape))
        case Some(u) => Ok(([item], u))
        case None => Err(Malformed)
  }

  function ParseItem(shape: Shape, s: string): (r: Parsed<Item>)
    requires IsGroup(shape)
    ensures r.Ok? ==> |r.value.1| < |s|
    decreases |s|, 1
  {
    match shape
    case ArrayShape(_, element) =>
      (match Parse(element, s)
       case Err(e) => Err(e)
       case Ok((x, rest)) => Ok((Element(x), rest)))
    case MapShape(_, element) =>
      (match Key(s)
       case Err(e) => Err(e)
       case Ok((key, t)) =>
         match Parse(element, t)
         case Err(e) => Err(e)
         case Ok((x, rest)) => Ok((Entry(key, x), rest)))
    case ObjectShape(_, fields) =>
      match Key(s)
      case Err(e) => Err(e)
      case Ok((key, t)) =>
        var n := FieldIndex(fields, key);
        if n < |fields| then
          match Parse(fields[n].shape, t)
          case Err(e) => Err(e)
          case Ok((x, rest)) => Ok((Known(n, x), rest))
        else
          match Skip(t)
          case Err(e) => Err(e)
          case Ok(rest) => Ok((Skipped, rest))
  }

  /** The whole text; after a nonempty object nothing may follow but white space. */
  function Document(shape: Shape, s: string): Result<Json, JsonError>
    requires IsGroup(shape)
  {
    match Parse(shape, s)
    case Err(e) => Err(e)
    case Ok((x, rest)) => if x == Group([]) || SkipSpace(rest) == "" then Ok(x) else Err(Malformed)
  }

  // -------------------------------------------------------------------- writing

  predicate WellShaped(shape: Shape) {
    match shape
    case ArrayShape(layout, element) => BlankLayout(layout) && WellShaped(element)
    case MapShape(layout, element) => BlankLayout(layout) && WellShaped(element)
    case ObjectShape(layout, fields) =>
      && BlankLayout(layout)
      && (forall i, j :: 0 <= i < j < |fields| ==> fields[i].name != fields[j].name)
      && forall i :: 0 <= i < |fields| ==> WellShaped(fields[i].shape)
    case _ => true
  }

  predicate BlankLayout(layout: Layout) {
    Blank(layout.lead) && Blank(layout.between) && Blank(layout.tail)
  }

  /** The value has this shape, an object all its fields in order. */
  predicate Fits(shape: Shape, j: Json)
    decreases j
  {
    match j
    case Text(_) => shape.StringShape?
    case Number(n) => shape.NumberShape? && n < TwoTo64
    case Flag(_) => shape.BoolShape?
    case Group(items) =>
      && IsGroup(shape) && (shape.ObjectShape? ==> |items| == |shape.fields|)
      && forall k :: 0 <= k < |items| ==>
           match items[k]
           case Element(x) => shape.ArrayShape? && Fits(shape.element, x)
           case Entry(_, x) => shape.MapShape? && Fits(shape.element, x)
           case Known(field, x) => shape.ObjectShape? && field == k && Fits(shape.fields[k].shape, x)
           case Skipped => false
  }

  function Write(shape: Shape, j: Json): string
    requires Fits(shape, j)
    decreases j, 2, 0
  {
    match j
    case Text(s) => Quoted(s)
    case Number(n) => Digits(n)
    case Flag(b) => BoolText(b)
    case Group(items) =>
      [Open(shape)] + (if items == [] then "" else shape.layout.lead + WriteFrom(shape, j, 0)) + [Close(shape)]
  }

  /** The items from position k on, and the white space before the closing bracket. */
  function WriteFrom(shape: Shape, j: Json, k: nat): string
    requires Fits(shape, j) && j.Group? && k < |j.items|
    decreases j, 1, |j.items| - k
  {
    WriteItem(shape, j, k)
    + if k + 1 == |j.items| then shape.layout.tail else [','] + shape.layout.between + WriteFrom(shape, j, k + 1)
  }

  function WriteItem(shape: Shape, j: Json, k: nat): string
    requires Fits(shape, j) && j.Group? && k < |j.items|
    decreases j, 0, 0
  {
    match j.items[k]
    case Element(x) => Write(shape.element, x)
    case Entry(key, x) => Quoted(key) + ": " + Write(shape.element, x)
    case Known(field, x) => Quoted(shape.fields[field].name) + ": " + Write(shape.fields[field].shape, x)
  }

  // ----------------------------------------------------------------- round trip

  predicate NoDigit(s: string) {
    s == "" || !IsDigit(s[0])
  }

  /** The characters a value can start with. */
  predicate Starts(s: string) {
    s != "" && !IsSpace(s[0]) && s[0] !in {']', '}', ',', ':'}
  }

  lemma WriteStarts(shape: Shape, j: Json)
    requires Fits(shape, j)
    ensures Starts(Write(shape, j))
  {
    if j.Number? { assert IsDigit(Digits(j.number)[0]); }
  }

  lemma ItemStarts(shape: Shape, j: Json, k: nat)
    requires Fits(shape, j) && j.Group? && k < |j.items|
    ensures Starts(WriteItem(shape, j, k))
  {
    match j.items[k]
    case Element(x) => WriteStarts(shape.element, x);
    case Entry(key, x) => assert Quoted(key)[0] == '\"';
    case Known(field, x) => assert Quoted(shape.fields[field].name)[0] == '\"';
  }

  lemma FromStarts(shape: Shape, j: Json, k: nat)
    requires Fits(shape, j) && j.Group? && k < |j.items|
    ensures Starts(WriteFrom(shape, j, k))
  {
    ItemStarts(shape, j, k);
  }

  /** A closing bracket or comma is not at the front of a value. */
  lemma NotConsumed(blank: string, s: string, rest: string, c: char)
    requires Blank(blank) && Starts(s) && c in {']', '}', ','}
    ensures Consume(blank + s + rest, c).None?
  {
    SkipsBlank(blank, s + rest);
    assert blank + s + rest == blank + (s + rest);
  }

  lemma ReadsKey(blank: string, key: string, rest: string)
    requires Blank(blank)
    ensures Key(blank + (Quoted(key) + ": ") + rest) == Ok((key, [' '] + rest))
  {
    var t := ": " + rest;
    ReadsQuoted(blank, key, t);
    assert blank + (Quoted(key) + ": ") + rest == blank + Quoted(key) + t;
    Consumes("", ':', ':', [' '] + rest);
    assert "" + [':'] + ([' '] + rest) == t;
  }

  /** Reading what was written gives back the value, before whatever follows. */
  lemma {:induction false} RoundTrip(shape: Shape, j: Json, blank: string, rest: string)
    requires WellShaped(shape) && Fits(shape, j) && Blank(blank) && NoDigit(rest)
    ensures Parse(shape, blank + Write(shape, j) + rest) == Ok((j, rest))
    decreases j, 2, 0
  {
    match j
    case Text(s) => ReadsQuoted(blank, s, rest);
    case Number(n) => ReadsNumber(blank, n, rest);
    case Flag(b) => ReadsBool(blank, b, rest);
    case Group(items) => GroupRoundTrip(shape, j, blank, rest);
  }

  lemma {:induction false} GroupRoundTrip(shape: Shape, j: Json, blank: string, rest: string)
    requires WellShaped(shape) && Fits(shape, j) && Blank(blank) && NoDigit(rest) && j.Group?
    ensures Parse(shape, blank + Write(shape, j) + rest) == Ok((j, rest))
    decreases j, 1, |j.items| + 1
  {
    var close := [Close(shape)] + rest;
    var body := if j.items == [] then close else shape.layout.lead + WriteFrom(shape, j, 0) + close;
    GroupText(shape, j, blank, rest, body);
    Consumes(blank, Open(shape), Open(shape), body);
    if j.items == [] {
      Consumes("", Close(shape), Close(shape), rest);
      assert "" + [Close(shape)] + rest == body;
    } else {
      FromStarts(shape, j, 0);
      NotConsumed(shape.layout.lead, WriteFrom(shape, j, 0), close, Close(shape));
      ItemsRoundTrip(shape, j, 0, shape.layout.lead, rest);
      assert j.items[0..] == j.items;
    }
  }

  lemma GroupText(shape: Shape, j: Json, blank: string, rest: string, body: string)
    requires Fits(shape, j) && j.Group?
    requires body == if j.items == [] then [Close(shape)] + rest
                     else shape.layout.lead + WriteFrom(shape, j, 0) + ([Close(shape)] + rest)
    ensures blank + Write(shape, j) + rest == blank + [Open(shape)] + body
  {
  }

  /** What follows item k. */
  function After(shape: Shape, j: Json, k: nat, rest: string): string
    requires Fits(shape, j) && j.Group? && k < |j.items|
  {
    if k + 1 == |j.items| then shape.layout.tail + [Close(shape)] + rest
    else [','] + (shape.layout.between + WriteFrom(shape, j, k + 1) + ([Close(shape)] + rest))
  }

  lemma FromText(shape: Shape, j: Json, k: nat, blank: string, rest: string)
    requires Fits(shape, j) && j.Group? && k < |j.items|
    ensures blank + WriteFrom(shape, j, k) + ([Close(shape)] + rest) == blank + WriteItem(shape, j, k) + After(shape, j, k, rest)
  {
    var item := WriteItem(shape, j, k);
    if k + 1 == |j.items| {
      LastText(blank, item, shape.layout.tail, [Close(shape)], rest);
    } else {
      MoreText(blank, item, shape.layout.between, WriteFrom(shape, j, k + 1), [Close(shape)] + rest);
    }
  }

  lemma LastText(blank: string, item: string, tail: string, close: string, rest: string)
    ensures blank + (item + tail) + (close + rest) == blank + item + (tail + close + rest)
  {
  }

  lemma MoreText(blank: string, item: string, between: string, more: string, end: string)
    ensures blank + (item + ([','] + between + more)) + end == blank + item + ([','] + (between + more + end))
  {
  }

  lemma AfterLast(shape: Shape, j: Json, k: nat, rest: string)
    requires Fits(shape, j) && WellShaped(shape) && j.Group? && k + 1 == |j.items|
    ensures Consume(After(shape, j, k, rest), ',').None? && Consume(After(shape, j, k, rest), Close(shape)) == Some(rest)
  {
    Consumes(shape.layout.tail, Close(shape), ',', rest);
    Consumes(shape.layout.tail, Close(shape), Close(shape), rest);
  }

  lemma AfterMore(shape: Shape, j: Json, k: nat, rest: string)
    requires Fits(shape, j) && j.Group? && k + 1 < |j.items|
    ensures Consume(After(shape, j, k, rest), ',')
         == Some(TextFrom(shape, j, k + 1, shape.layout.between, rest))
  {
    var more := shape.layout.between + WriteFrom(shape, j, k + 1) + ([Close(shape)] + rest);
    Consumes("", ',', ',', more);
    assert "" + [','] + more == [','] + more;
  }

  lemma LastItem(shape: Shape, s: string, item: Item, t: string, rest: string)
    requires IsGroup(shape) && ParseItem(shape, s) == Ok((item, t))
    requires Consume(t, ',').None? && Consume(t, Close(shape)) == Some(rest)
    ensures Items(shape, s) == Ok(([item], rest))
  {
  }

  lemma NextItem(shape: Shape, s: string, item: Item, t: string, u: string, items: seq<Item>, rest: string)
    requires IsGroup(shape) && ParseItem(shape, s) == Ok((item, t))
    requires Consume(t, ',') == Some(u) && Items(shape, u) == Ok((items, rest))
    ensures Items(shape, s) == Ok(([item] + items, rest))
  {
  }

  lemma AfterNoDigit(shape: Shape, j: Json, k: nat, rest: string)
    requires Fits(shape, j) && j.Group? && k < |j.items| && WellShaped(shape)
    ensures NoDigit(After(shape, j, k, rest))
  {
    var tail := shape.layout.tail;
    if tail != "" { assert IsSpace(tail[0]); }
  }

  /** The items from position k on, before their closing bracket. */
  function TextFrom(shape: Shape, j: Json, k: nat, blank: string, rest: string): string
    requires Fits(shape, j) && j.Group? && k < |j.items|
  {
    blank + WriteFrom(shape, j, k) + ([Close(shape)] + rest)
  }

  lemma {:induction false} ItemsRoundTrip(shape: Shape, j: Json, k: nat, blank: string, rest: string)
    requires WellShaped(shape) && Fits(shape, j) && Blank(blank) && j.Group? && k < |j.items|
    ensures Items(shape, TextFrom(shape, j, k, blank, rest)) == Ok((j.items[k..], rest))
    decreases j, 1, |j.items| - k
  {
    var text, after := TextFrom(shape, j, k, blank, rest), After(shape, j, k, rest);
    NextRoundTrip(shape, j, k, blank, rest);
    if k + 1 == |j.items| {
      AfterLast(shape, j, k, rest);
      LastItem(shape, text, j.items[k], after, rest);
    } else {
      AfterMore(shape, j, k, rest);
      ItemsRoundTrip(shape, j, k + 1, shape.layout.between, rest);
      NextItem(shape, text, j.items[k], after, TextFrom(shape, j, k + 1, shape.layout.between, rest), j.items[k + 1..], rest);
    }
    ItemsSuffix(j.items, k);
  }

  lemma ItemsSuffix(items: seq<Item>, k: nat)
    requires k < |items|
    ensures items[k..] == [items[k]] + items[k + 1..] && (k + 1 == |items| ==> items[k..] == [items[k]])
  {
  }

  lemma {:induction false} NextRoundTrip(shape: Shape, j: Json, k: nat, blank: string, rest: string)
    requires WellShaped(shape) && Fits(shape, j) && Blank(blank) && j.Group? && k < |j.items|
    ensures ParseItem(shape, TextFrom(shape, j, k, blank, rest)) == Ok((j.items[k], After(shape, j, k, rest)))
    decreases j, 0, 1
  {
    FromText(shape, j, k, blank, rest);
    AfterNoDigit(shape, j, k, rest);
    ItemRoundTrip(shape, j, k, blank, After(shape, j, k, rest));
  }

  lemma {:induction false} ItemRoundTrip(shape: Shape, j: Json, k: nat, blank: string, after: string)
    requires WellShaped(shape) && Fits(shape, j) && Blank(blank) && j.Group? && k < |j.items| && NoDigit(after)
    ensures ParseItem(shape, blank + WriteItem(shape, j, k) + after) == Ok((j.items[k], after))
    decreases j, 0, 0
  {
    match j.items[k]
    case Element(x) => RoundTrip(shape.element, x, blank, after);
    case Entry(key, x) =>
      MemberText(blank, key, Write(shape.element, x), after);
      ReadsKey(blank, key, Write(shape.element, x) + after);
      RoundTrip(shape.element, x, [' '], after);
    case Known(field, x) =>
      var f := shape.fields[field];
      MemberText(blank, f.name, Write(f.shape, x), after);
      ReadsKey(blank, f.name, Write(f.shape, x) + after);
      RoundTrip(f.shape, x, [' '], after);
      FieldFound(shape.fields, field);
  }

  lemma MemberText(blank: string, key: string, value: string, after: string)
    ensures blank + (Quoted(key) + ": " + value) + after == blank + (Quoted(key) + ": ") + (value + after)
    ensures [' '] + value + after == [' '] + (value + after)
  {
  }

  lemma FieldFound(fields: seq<Field>, n: nat)
    requires n < |fields| && forall i, j :: 0 <= i < j < |fields| ==> fields[i].name != fields[j].name
    ensures FieldIndex(fields, fields[n].name) == n
  {
  }

  /** A written document, with blanks after it, is read back. */
  lemma DocumentRoundTrip(shape: Shape, j: Json, blank: string)
    requires WellShaped(shape) && Fits(shape, j) && IsGroup(shape) && Blank(blank)
    ensures Document(shape, Write(shape, j) + blank) == Ok(j)
  {
    var none: string := "";
    assert NoDigit(blank) by { if blank != "" { assert IsSpace(blank[0]); } }
    RoundTrip(shape, j, none, blank);
    assert none + Write(shape, j) + blank == Write(shape, j) + blank;
    SkipsBlank(blank, "");
    assert blank + "" == blank;
  }
}
