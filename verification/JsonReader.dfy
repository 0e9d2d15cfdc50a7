/** The reader itself (src/metadata.cpp:52-55, 84-193, 536-593): a cursor moving through the
    text. Each method takes off the front of the remaining text what the functions of JsonText
    and JsonShapes say. */
module JsonReader {
  import opened Wrappers
  import opened JsonText
  import opened JsonShapes

  /** The method's result and the text it leaves. */
  predicate Took<T(==)>(spec: Parsed<T>, r: Result<T, JsonError>, rest: string) {
    match spec
    case Ok((x, t)) => r == Ok(x) && rest == t
    case Err(_) => r.Err?
  }

  function PrependAll(out: string, r: Parsed<string>): Parsed<string> {
    match r
    case Err(e) => Err(e)
    case Ok((s, rest)) => Ok((out + s, rest))
  }

  lemma PrependNext(out: string, c: char, r: Parsed<string>)
    ensures PrependAll(out, Prepend(c, r)) == PrependAll(out + [c], r)
  {
    if r.Ok? { assert out + ([c] + r.value.0) == (out + [c]) + r.value.0; }
  }

  function PrependItems(done: seq<Item>, r: Parsed<seq<Item>>): Parsed<seq<Item>> {
    match r
    case Err(e) => Err(e)
    case Ok((items, rest)) => Ok((done + items, rest))
  }

  lemma PrependItem(done: seq<Item>, item: Item, r: Parsed<seq<Item>>)
    ensures PrependItems(done, PrependItems([item], r)) == PrependItems(done + [item], r)
  {
    if r.Ok? { assert done + ([item] + r.value.0) == (done + [item]) + r.value.0; }
  }

  lemma {:induction false} SkipsTwice(s: string)
    ensures SkipSpace(SkipSpace(s)) == SkipSpace(s)
  {
  }

  class JsonReader {
    const text: string
    var pos: nat

    ghost predicate Valid()
      reads this`pos
    {
      pos <= |text|
    }

    function Rest(): string
      requires Valid()
      reads this`pos
    {
      text[pos..]
    }

    constructor (text: string)
      ensures Valid() && this.text == text && Rest() == text
    {
      this.text, pos := text, 0;
    }

    method Whitespace()
      requires Valid()
      modifies this`pos
      ensures Valid() && pos >= old(pos) && Rest() == SkipSpace(old(Rest()))
    {
      while pos < |text| && IsSpace(text[pos])
        invariant Valid() && pos >= old(pos) && SkipSpace(Rest()) == SkipSpace(old(Rest()))
      {
        assert text[pos..][1..] == text[pos + 1..];
        pos := pos + 1;
      }
    }

    /** Only white space is skipped when the character is another one. */
    method ConsumeChar(c: char) returns (found: bool)
      requires Valid()
      modifies this`pos
      ensures Valid() && pos >= old(pos)
      ensures match Consume(old(Rest()), c)
              case Some(t) => found && Rest() == t
              case None => !found && Rest() == SkipSpace(old(Rest()))
    {
      Whitespace();
      found := pos < |text| && text[pos] == c;
      if found {
        assert text[pos..][1..] == text[pos + 1..];
        pos := pos + 1;
      }
    }

    method Finish() returns (r: Result<(), JsonError>)
      requires Valid()
      modifies this`pos
      ensures Valid()
      ensures r.Ok? <==> SkipSpace(old(Rest())) == ""
    {
      Whitespace();
      if pos != |text| { return Err(Malformed); }
      return Ok(());
    }

    // -------------------------------------------------------------------- tokens

    method ParseString() returns (r: Result<string, JsonError>)
      requires Valid()
      modifies this`pos
      ensures Valid() && pos >= old(pos)
      ensures Took(StringToken(old(Rest())), r, Rest())
    {
      Whitespace();
      if pos >= |text| || text[pos] != '\"' { return Err(Malformed); }
      assert text[pos..][1..] == text[pos + 1..];
      pos := pos + 1;
      ghost var body := StringBody(Rest());
      var out := "";
      assert PrependAll(out, body) == body by { if body.Ok? { assert "" + body.value.0 == body.value.0; } }
      while pos < |text|
        invariant Valid() && pos >= old(pos) && body == PrependAll(out, StringBody(Rest()))
        decreases |text| - pos
      {
        var ch := text[pos];
        assert text[pos..][1..] == text[pos + 1..];
        ghost var s := Rest();
        pos := pos + 1;
        if ch == '\"' {
          assert out + "" == out;
          return Ok(out);
        }
        if ch != '\\' {
          PrependNext(out, ch, StringBody(Rest()));
          out := out + [ch];
        } else {
          var c := ParseEscape();
          if c.Err? { return Err(Malformed); }
          PrependNext(out, c.value, StringBody(Rest()));
          out := out + [c.value];
        }
      }
      return Err(Malformed);
    }

    method ParseEscape() returns (r: Result<char, JsonError>)
      requires Valid()
      modifies this`pos
      ensures Valid() && pos >= old(pos)
      ensures Took(EscapeToken(old(Rest())), r, Rest())
    {
      if pos >= |text| { return Err(Malformed); }
      var escaped := text[pos];
      assert text[pos..][1..] == text[pos + 1..];
      pos := pos + 1;
      match escaped {
        case '\"' => return Ok('\"');
        case '\\' => return Ok('\\');
        case '/' => return Ok('/');
        case 'b' => return Ok(8 as char);
        case 'f' => return Ok(12 as char);
        case 'n' => return Ok('\n');
        case 'r' => return Ok('\r');
        case 't' => return Ok('\t');
        case 'u' => r := ParseUnicode();
        case _ => return Err(Malformed);
      }
    }

    method ParseUnicode() returns (r: Result<char, JsonError>)
      requires Valid()
      modifies this`pos
      ensures Valid() && pos >= old(pos)
      ensures Took(UnicodeToken(old(Rest())), r, Rest())
    {
      if pos + 4 > |text| { return Err(Malformed); }
      ghost var digits := text[pos..][..4];
      var value := 0;
      for i := 0 to 4
        invariant pos == old(pos) + i && HexNumber(digits, i) == Some(value)
      {
        assert digits[i] == text[pos];
        var hex := HexValue(text[pos]);
        pos := pos + 1;
        if hex.None? {
          NoHexNumber(digits, i + 1);
          return Err(Malformed);
        }
        value := value * 16 + hex.value;
      }
      if value > 0x7f { return Err(Malformed); }
      assert text[old(pos)..][4..] == text[pos..];
      return Ok(value as char);
    }

    method ParseBool() returns (r: Result<bool, JsonError>)
      requires Valid()
      modifies this`pos
      ensures Valid() && pos >= old(pos)
      ensures Took(BoolToken(old(Rest())), r, Rest())
    {
      Whitespace();
      if StartsWith(text[pos..], "true") {
        assert text[pos..][4..] == text[pos + 4..];
        pos := pos + 4;
        return Ok(true);
      }
      if StartsWith(text[pos..], "false") {
        assert text[pos..][5..] == text[pos + 5..];
        pos := pos + 5;
        return Ok(false);
      }
      return Err(Malformed);
    }

    method SkipDigits()
      requires Valid()
      modifies this`pos
      ensures Valid() && pos == old(pos) + DigitRun(old(Rest()))
    {
      ghost var s := Rest();
      while pos < |text| && IsDigit(text[pos])
        invariant old(pos) <= pos <= |text| && DigitRun(s) == pos - old(pos) + DigitRun(Rest())
      {
        assert text[pos..][1..] == text[pos + 1..];
        pos := pos + 1;
      }
    }

    method ParseUnsigned() returns (r: Result<nat, JsonError>)
      requires Valid()
      modifies this`pos
      ensures Valid() && pos >= old(pos)
      ensures Took(NumberToken(old(Rest())), r, Rest())
    {
      Whitespace();
      var start := pos;
      ghost var s := Rest();
      SkipDigits();
      if start == pos { return Err(Malformed); }
      var value := DigitsValue(text[start..pos]);
      assert s[..pos - start] == text[start..pos] && s[pos - start..] == Rest();
      if value >= TwoTo64 { return Err(Malformed); }
      return Ok(value);
    }

    // ----------------------------------------------------------------- structure

    method ParseKey() returns (r: Result<string, JsonError>)
      requires Valid()
      modifies this`pos
      ensures Valid() && pos >= old(pos)
      ensures Took(Key(old(Rest())), r, Rest())
    {
      r := ParseString();
      if r.Err? { return; }
      var colon := ConsumeChar(':');
      if !colon { return Err(Malformed); }
    }

    method SkipValue() returns (r: Result<(), JsonError>)
      requires Valid()
      modifies this`pos
      ensures Valid() && pos >= old(pos)
      ensures TookRest(Skip(old(Rest())), r, Rest())
      decreases |text| - pos, 0
    {
      Whitespace();
      if pos >= |text| { return Err(Malformed); }
      var ch := text[pos];
      ghost var s := Rest();
      SkipsTwice(old(Rest()));
      if ch == '\"' {
        var ignored := ParseString();
        return if ignored.Ok? then Ok(()) else Err(Malformed);
      }
      if ch == '{' || ch == '[' {
        var close := if ch == '{' then '}' else ']';
        assert s[1..] == text[pos + 1..];
        pos := pos + 1;
        var closed := ConsumeChar(close);
        if closed { return Ok(()); }
        SkipItemsAfterSpace(close, s[1..]);
        r := SkipGroup(close);
      } else {
        r := SkipBare();
      }
    }

    method SkipBare() returns (r: Result<(), JsonError>)
      requires Valid()
      modifies this`pos
      ensures Valid() && pos >= old(pos)
      ensures r.Ok? <==> BareRun(old(Rest())) > 0
      ensures Rest() == old(Rest())[BareRun(old(Rest()))..]
    {
      var start := pos;
      ghost var s := Rest();
      while pos < |text| && !IsSpace(text[pos]) && text[pos] !in {',', '}', ']'}
        invariant start <= pos <= |text| && BareRun(s) == pos - start + BareRun(Rest())
      {
        assert text[pos..][1..] == text[pos + 1..];
        pos := pos + 1;
      }
      assert s[pos - start..] == Rest();
      if start == pos { return Err(Malformed); }
      return Ok(());
    }

    method SkipGroup(close: char) returns (r: Result<(), JsonError>)
      requires Valid()
      modifies this`pos
      ensures Valid() && pos >= old(pos)
      ensures TookRest(SkipItems(close, old(Rest())), r, Rest())
      decreases |text| - pos, 2
    {
      ghost var spec := SkipItems(close, Rest());
      var more := true;
      while more
        invariant Valid() && pos >= old(pos)
        invariant spec == if more then SkipItems(close, Rest()) else Closed(close, Rest())
        decreases more, |text| - pos
      {
        r := SkipMember(close);
        if r.Err? { return; }
        ClosedAfterSpace(close, Rest());
        more := ConsumeChar(',');
      }
      var closed := ConsumeChar(close);
      return if closed then Ok(()) else Err(Malformed);
    }

    method SkipMember(close: char) returns (r: Result<(), JsonError>)
      requires Valid()
      modifies this`pos
      ensures Valid() && pos >= old(pos)
      ensures TookRest(SkipItem(close, old(Rest())), r, Rest())
      decreases |text| - pos, 1
    {
      if close != ']' {
        var key := ParseKey();
        if key.Err? { return Err(Malformed); }
      }
      r := SkipValue();
    }

    /** What the parse functions of tables, columns, snapshots, contexts, messages, atoms and
        aliases have in common. */
    method ParseShape(shape: Shape) returns (r: Result<Json, JsonError>)
      requires Valid()
      modifies this`pos
      ensures Valid() && pos >= old(pos)
      ensures Took(Parse(shape, old(Rest())), r, Rest())
      decreases |text| - pos, 1
    {
      match shape
      case StringShape =>
        var x := ParseString();
        return if x.Ok? then Ok(Text(x.value)) else Err(Malformed);
      case NumberShape =>
        var x := ParseUnsigned();
        return if x.Ok? then Ok(Number(x.value)) else Err(Malformed);
      case BoolShape =>
        var x := ParseBool();
        return if x.Ok? then Ok(Flag(x.value)) else Err(Malformed);
      case _ => r := ParseGroup(shape);
    }

    method ParseGroup(shape: Shape) returns (r: Result<Json, JsonError>)
      requires Valid() && IsGroup(shape)
      modifies this`pos
      ensures Valid() && pos >= old(pos)
      ensures Took(Parse(shape, old(Rest())), r, Rest())
      decreases |text| - pos, 0
    {
      ghost var s := Rest();
      var started := ConsumeChar(Open(shape));
      if !started { return Err(Malformed); }
      ghost var t := Rest();
      var closed := ConsumeChar(Close(shape));
      if closed { return Ok(Group([])); }
      ItemsAfterSpace(shape, t);
      var items := ParseItems(shape);
      return if items.Ok? then Ok(Group(items.value)) else Err(Malformed);
    }

    method ParseItems(shape: Shape) returns (r: Result<seq<Item>, JsonError>)
      requires Valid() && IsGroup(shape)
      modifies this`pos
      ensures Valid() && pos >= old(pos)
      ensures Took(Items(shape, old(Rest())), r, Rest())
      decreases |text| - pos, 3
    {
      ghost var spec := Items(shape, Rest());
      var items: seq<Item> := [];
      var more := true;
      NothingDone(spec);
      while more
        invariant Valid() && pos >= old(pos)
        invariant spec == if more then PrependItems(items, Items(shape, Rest())) else ClosedItems(Close(shape), items, Rest())
        decreases more, |text| - pos
      {
        ghost var s := Rest();
        var item := ParseNext(shape);
        if item.Err? { return Err(Malformed); }
        ItemsNext(shape, items, s, item.value, Rest());
        items := items + [item.value];
        more := ConsumeChar(',');
      }
      var closed := ConsumeChar(Close(shape));
      return if closed then Ok(items) else Err(Malformed);
    }

    method ParseNext(shape: Shape) returns (r: Result<Item, JsonError>)
      requires Valid() && IsGroup(shape)
      modifies this`pos
      ensures Valid() && pos >= old(pos)
      ensures Took(ParseItem(shape, old(Rest())), r, Rest())
      decreases |text| - pos, 2
    {
      if shape.ArrayShape? {
        var x := ParseShape(shape.element);
        return if x.Ok? then Ok(Element(x.value)) else Err(Malformed);
      }
      var key := ParseKey();
      if key.Err? { return Err(Malformed); }
      if shape.MapShape? {
        var x := ParseShape(shape.element);
        return if x.Ok? then Ok(Entry(key.value, x.value)) else Err(Malformed);
      }
      var n := FieldIndex(shape.fields, key.value);
      if n < |shape.fields| {
        var x := ParseShape(shape.fields[n].shape);
        return if x.Ok? then Ok(Known(n, x.value)) else Err(Malformed);
      }
      var skipped := SkipValue();
      return if skipped.Ok? then Ok(Skipped) else Err(Malformed);
    }

    /** parseCatalog */
    method ParseDocument(shape: Shape) returns (r: Result<Json, JsonError>)
      requires Valid() && IsGroup(shape)
      modifies this`pos
      ensures Document(shape, old(Rest())).Ok? ==> r == Document(shape, old(Rest()))
      ensures Document(shape, old(Rest())).Err? ==> r.Err?
    {
      r := ParseShape(shape);
      if r.Err? || r.value == Group([]) { return; }
      var end := Finish();
      if end.Err? { return Err(Malformed); }
    }
  }

  lemma NothingDone(spec: Parsed<seq<Item>>)
    ensures spec == PrependItems([], spec)
  {
    if spec.Ok? { assert [] + spec.value.0 == spec.value.0; }
  }

  /** The closing bracket or an error. */
  function Closed(close: char, s: string): Result<string, JsonError> {
    match Consume(s, close)
    case Some(t) => Ok(t)
    case None => Err(Malformed)
  }

  lemma ClosedAfterSpace(close: char, s: string)
    ensures Closed(close, SkipSpace(s)) == Closed(close, s) && Consume(SkipSpace(s), ',') == Consume(s, ',')
  {
    SkipsTwice(s);
  }

  predicate TookRest(spec: Result<string, JsonError>, r: Result<(), JsonError>, rest: string) {
    match spec
    case Ok(t) => r.Ok? && rest == t
    case Err(_) => r.Err?
  }

  lemma SkipItemsAfterSpace(close: char, s: string)
    ensures SkipItems(close, SkipSpace(s)) == SkipItems(close, s)
  {
    SkipsTwice(s);
    assert Skip(SkipSpace(s)) == Skip(s) && Key(SkipSpace(s)) == Key(s);
    assert SkipItem(close, SkipSpace(s)) == SkipItem(close, s);
  }

  lemma ParseAfterSpace(shape: Shape, s: string)
    ensures Parse(shape, SkipSpace(s)) == Parse(shape, s)
  {
    SkipsTwice(s);
  }

  lemma ItemsAfterSpace(shape: Shape, s: string)
    requires IsGroup(shape)
    ensures Items(shape, SkipSpace(s)) == Items(shape, s)
  {
    SkipsTwice(s);
    if shape.ArrayShape? {
      ParseAfterSpace(shape.element, s);
    } else {
      assert Key(SkipSpace(s)) == Key(s);
    }
    assert ParseItem(shape, SkipSpace(s)) == ParseItem(shape, s);
  }

  /** The items read so far and the closing bracket, or an error. */
  function ClosedItems(close: char, done: seq<Item>, s: string): Parsed<seq<Item>> {
    match Consume(s, close)
    case Some(t) => Ok((done, t))
    case None => Err(Malformed)
  }

  lemma ItemsNext(shape: Shape, done: seq<Item>, s: string, item: Item, t: string)
    requires IsGroup(shape) && ParseItem(shape, s) == Ok((item, t))
    ensures PrependItems(done, Items(shape, s)) ==
      match Consume(t, ',')
      case Some(u) => PrependItems(done + [item], Items(shape, u))
      case None => ClosedItems(Close(shape), done + [item], SkipSpace(t))
  {
    SkipsTwice(t);
    match Consume(t, ',')
    case Some(u) =>
      assert Items(shape, s) == PrependItems([item], Items(shape, u));
      PrependItem(done, item, Items(shape, u));
    case None =>
  }
}
