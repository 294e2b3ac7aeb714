/**
 * A reader of JSON text (RFC 8259), written apart from the printer. What `stableStringify` printed reads back as what
 * the value means.
 */
module JsonRead {
  import opened Common
  import opened Json

  // -------------------------------------------------------------------- strings

  /** The digit a unit stands for in `\uXXXX`. */
  function HexOf(c: Unit): (r: Option<nat>)
    ensures r.Some? ==> r.value < 16
  {
    if 0x30 <= c <= 0x39 then Some(c - 0x30)
    else if 0x41 <= c <= 0x46 then Some(c - 0x41 + 10)
    else if 0x61 <= c <= 0x66 then Some(c - 0x61 + 10)
    else None
  }

  /** The escape `\uXXXX`, past its `u`. */
  function HexUnit(t: Text): (r: Option<Unit>) {
    if |t| < 4 || HexOf(t[0]).None? || HexOf(t[1]).None? || HexOf(t[2]).None? || HexOf(t[3]).None? then None
    else
      Some(HexOf(t[0]).value * 0x1000 + HexOf(t[1]).value * 0x100 + HexOf(t[2]).value * 0x10 + HexOf(t[3]).value)
  }

  /** The one-letter escapes. */
  function Escape(c: Unit): Option<Unit> {
    if c == 0x22 || c == 0x5c || c == 0x2f then Some(c)   // a quote, a backslash or a slash
    else if c == 'b' as int then Some(8)
    else if c == 'f' as int then Some(12)
    else if c == 'n' as int then Some(10)
    else if c == 'r' as int then Some(13)
    else if c == 't' as int then Some(9)
    else None
  }

  function Push(c: Unit, r: Option<(Text, Text)>): Option<(Text, Text)> {
    if r.None? then None else Some(([c] + r.value.0, r.value.1))
  }

  /** The string past its opening quote, and what follows its closing one. */
  function ReadString(t: Text): (r: Option<(Text, Text)>)
    ensures r.Some? ==> |r.value.1| < |t|
  {
    if t == [] || t[0] < 0x20 then None
    else if t[0] == 0x22 then Some(([], t[1..]))
    else if t[0] != 0x5c then Push(t[0], ReadString(t[1..]))
    else if |t| < 2 then None
    else if t[1] == 0x75 then
      if HexUnit(t[2..]).None? then None else Push(HexUnit(t[2..]).value, ReadString(t[6..]))
    else if Escape(t[1]).None? then None
    else Push(Escape(t[1]).value, ReadString(t[2..]))
  }

  // --------------------------------------------------------------------- values

  predicate Begins(t: Text, word: Text) { |word| <= |t| && t[..|word|] == word }

  /** How many units of a number `t` begins with. */
  function NumberLength(t: Text): (n: nat)
    ensures n <= |t|
  {
    if t == [] || !IsNumberUnit(t[0]) then 0 else 1 + NumberLength(t[1..])
  }

  /** The value that `t` begins with, and what follows it. */
  function ReadValue(t: Text): (r: Option<(Tree, Text)>)
    ensures r.Some? ==> |r.value.1| < |t|
    decreases |t|, 0
  {
    if t == [] then None
    else if t[0] == 0x22 then
      var s := ReadString(t[1..]);
      if s.None? then None else Some((StrTree(s.value.0), s.value.1))
    else if t[0] == 0x5b then
      if |t| > 1 && t[1] == 0x5d then Some((ArrTree([]), t[2..]))
      else
        var es := ReadElements(t[1..]);
        if es.None? then None else Some((ArrTree(es.value.0), es.value.1))
    else if t[0] == 0x7b then
      if |t| > 1 && t[1] == 0x7d then Some((ObjTree(map[]), t[2..]))
      else
        var ms := ReadMembers(t[1..]);
        if ms.None? then None else Some((ObjTree(ms.value.0), ms.value.1))
    else if Begins(t, Ascii("null")) then Some((NullTree, t[4..]))
    else if Begins(t, Ascii("true")) then Some((BoolTree(true), t[4..]))
    else if Begins(t, Ascii("false")) then Some((BoolTree(false), t[5..]))
    else if t[0] == 0x2d || IsDigit(t[0]) then Some((NumTree(t[..NumberLength(t)]), t[NumberLength(t)..]))
    else None
  }

  /** Elements up to the closing bracket. */
  function ReadElements(t: Text): (r: Option<(seq<Tree>, Text)>)
    ensures r.Some? ==> |r.value.1| < |t|
    decreases |t|, 1
  {
    var v := ReadValue(t);
    if v.None? || v.value.1 == [] then None
    else
      var (tree, x) := v.value;
      if x[0] == 0x5d then Some(([tree], x[1..]))
      else if x[0] != 0x2c then None
      else
        var rest := ReadElements(x[1..]);
        if rest.None? then None else Some(([tree] + rest.value.0, rest.value.1))
  }

  /** Members up to the closing brace. The last of several members of one name counts. */
  function ReadMembers(t: Text): (r: Option<(map<Text, Tree>, Text)>)
    ensures r.Some? ==> |r.value.1| < |t|
    decreases |t|, 1
  {
    if t == [] || t[0] != 0x22 || ReadString(t[1..]).None? then None
    else
      var (key, x) := ReadString(t[1..]).value;
      if x == [] || x[0] != 0x3a then None
      else
        var v := ReadValue(x[1..]);
        if v.None? || v.value.1 == [] then None
        else
          var (tree, y) := v.value;
          if y[0] == 0x7d then Some((map[key := tree], y[1..]))
          else if y[0] != 0x2c then None
          else
            var rest := ReadMembers(y[1..]);
            if rest.None? then None else Some((map[key := tree] + rest.value.0, rest.value.1))
  }

  /** A text that is one value and nothing more. */
  function Read(t: Text): Option<Tree> {
    var r := ReadValue(t);
    if r.Some? && r.value.1 == [] then Some(r.value.0) else None
  }

  // --------------------------------------------------------- which texts are JSON

  /** Nowhere an undefined element, unless it is the only one; nothing at all is no JSON text either. */
  predicate Readable(v: Value) {
    match v
    case Undefined => false
    case Arr(xs) => xs == Item(Undefined, NoItems) || ReadableItems(xs)
    case Obj(ms) => ReadableMembers(ms)
    case _ => true
  }

  predicate ReadableItems(xs: Items) { xs.Item? ==> Readable(xs.head) && ReadableItems(xs.tail) }

  predicate ReadableMembers(ms: Members) {
    ms.Member? ==> (ms.value.Undefined? || Readable(ms.value)) && ReadableMembers(ms.rest)
  }

  lemma {:induction false} DefinedReadable(ms: Members)
    ensures ReadableMembers(Defined(ms)) <==> ReadableMembers(ms)
  {
    hide Readable;
    if ms.Member? { DefinedReadable(ms.rest); }
  }

  lemma {:induction false} InsertReadable(k: Text, v: Value, ms: Members)
    ensures ReadableMembers(Insert(k, v, ms)) <==> (v.Undefined? || Readable(v)) && ReadableMembers(ms)
  {
    hide Readable, Less;
    if ms.Member? && !Less(k, ms.key) { InsertReadable(k, v, ms.rest); }
  }

  lemma {:induction false} SortedReadable(ms: Members)
    ensures ReadableMembers(Sorted(ms)) <==> ReadableMembers(ms)
  {
    hide Readable, Insert;
    if ms.Member? {
      SortedReadable(ms.rest);
      InsertReadable(ms.key, ms.value, Sorted(ms.rest));
    }
  }

  // ------------------------------------------------------------ strings read back

  lemma HexBack(c: Unit, x: Text)
    ensures HexUnit(Hex4(c) + x) == Some(c)
  {
    var d := Hex4(c);
    assert (d + x)[0] == d[0] && (d + x)[1] == d[1] && (d + x)[2] == d[2] && (d + x)[3] == d[3];
    HexDigitBack(c / 16 / 16 / 16);
    HexDigitBack(c / 16 / 16 % 16);
    HexDigitBack(c / 16 % 16);
    HexDigitBack(c % 16);
  }

  lemma HexDigitBack(d: int)
    requires 0 <= d < 16
    ensures HexOf(HexDigit(d)) == Some(d)
  {
  }

  lemma EscapeBack(c: Unit)
    requires HasLetter(c)
    ensures Letter(c) != 0x75 && Escape(Letter(c)) == Some(c)
  {
  }

  function PushAll(s: Text, r: Option<(Text, Text)>): Option<(Text, Text)> {
    if r.None? then None else Some((s + r.value.0, r.value.1))
  }

  lemma PlainBack(c: Unit, y: Text)
    requires c >= 0x20 && c != 0x22 && c != 0x5c
    ensures ReadString([c] + y) == Push(c, ReadString(y))
  {
    assert ([c] + y)[1..] == y;
  }

  lemma PushTwo(c: Unit, d: Unit, r: Option<(Text, Text)>)
    ensures Push(c, Push(d, r)) == PushAll([c, d], r)
  {
    if r.Some? { assert [c] + ([d] + r.value.0) == [c, d] + r.value.0; }
  }

  lemma EscapedBack(c: Unit, letter: Unit, y: Text)
    requires letter != 0x75 && Escape(letter) == Some(c)
    ensures ReadString([0x5c, letter] + y) == Push(c, ReadString(y))
  {
    hide Escape;
    assert ([0x5c, letter] + y)[2..] == y;
  }

  lemma HexEscapedBack(c: Unit, y: Text)
    ensures ReadString([0x5c, 0x75] + Hex4(c) + y) == Push(c, ReadString(y))
  {
    hide Hex4, HexUnit;
    var t := [0x5c, 0x75] + Hex4(c) + y;
    assert t[2..] == Hex4(c) + y && t[6..] == y;
    HexBack(c, y);
  }

  /** One printed character, or pair of surrogates, is read as itself. */
  lemma ChunkBack(s: Text, y: Text)
    requires s != []
    ensures ReadString(Chunk(s) + y) == PushAll(s[..Width(s)], ReadString(y))
  {
    hide Hex4, Letter, Escape, ReadString;
    var c := s[0];
    if IsPair(s) {
      PlainBack(s[1], y);
      PlainBack(c, [s[1]] + y);
      assert Chunk(s) + y == [c] + ([s[1]] + y) && s[..2] == [c, s[1]];
      PushTwo(c, s[1], ReadString(y));
    } else {
      assert s[..1] == [c];
      if HasLetter(c) {
        EscapeBack(c);
        EscapedBack(c, Letter(c), y);
      } else if IsHigh(c) || IsLow(c) || c < 0x20 {
        HexEscapedBack(c, y);
      } else {
        PlainBack(c, y);
      }
    }
  }

  lemma {:induction false} BodyBack(s: Text, x: Text)
    ensures ReadString(Body(s) + ([0x22] + x)) == Some((s, x))
  {
    if s == [] {
      assert Body(s) + ([0x22] + x) == [0x22] + x;
    } else {
      hide *;
      var rest := s[Width(s)..];
      BodyUnfold(s, [0x22] + x);
      ChunkBack(s, Body(rest) + ([0x22] + x));
      BodyBack(rest, x);
      Glued(s, Width(s), x);
    }
  }

  lemma Glued(s: Text, n: nat, x: Text)
    requires n <= |s|
    ensures PushAll(s[..n], Some((s[n..], x))) == Some((s, x))
  {
    assert s[..n] + s[n..] == s;
  }

  lemma QuoteBack(s: Text, x: Text)
    ensures ReadString((Quote(s) + x)[1..]) == Some((s, x)) && (Quote(s) + x)[0] == 0x22
  {
    hide Body, ReadString;
    assert (Quote(s) + x)[1..] == Body(s) + ([0x22] + x);
    BodyBack(s, x);
  }

  // ------------------------------------------------------------- values read back

  lemma {:induction false} NumberBack(s: Text, x: Text)
    requires (forall i :: 0 <= i < |s| ==> IsNumberUnit(s[i])) && Delimited(x)
    ensures NumberLength(s + x) == |s|
  {
    if s == [] {
      assert s + x == x;
    } else {
      assert (s + x)[1..] == s[1..] + x;
      NumberBack(s[1..], x);
    }
  }

  lemma NumberValueBack(s: Text, x: Text)
    requires IsNumberText(s) && Delimited(x)
    ensures ReadValue(s + x) == Some((NumTree(s), x))
  {
    hide NumberLength;
    NumberBack(s, x);
    var t := s + x;
    assert t[..|s|] == s && t[|s|..] == x && t[0] == s[0];
    assert Ascii("null")[0] == 0x6e && Ascii("true")[0] == 0x74 && Ascii("false")[0] == 0x66;
  }

  lemma WordBack(word: Text, x: Text)
    ensures Begins(word + x, word) && (word + x)[|word|..] == x
  {
  }

  lemma NullBack(x: Text)
    ensures ReadValue(NULL + x) == Some((NullTree, x))
  {
    assert Ascii("null") == NULL;
    WordBack(NULL, x);
  }

  lemma BoolBack(b: bool, x: Text)
    ensures ReadValue(Literal(b) + x) == Some((BoolTree(b), x))
  {
    assert Ascii("true") == Literal(true) && Ascii("false") == Literal(false) && Ascii("null")[0] == 0x6e;
    WordBack(Literal(b), x);
    if !b { assert (Literal(b) + x)[0] == 0x66; }
  }

  lemma NothingBack(x: Text)
    requires Delimited(x)
    ensures ReadValue(x) == None
  {
    assert Ascii("null")[0] == 0x6e && Ascii("true")[0] == 0x74 && Ascii("false")[0] == 0x66;
  }

  /** What the reader must make of a printed value and what follows it. */
  function Due(v: Value, x: Text): Option<(Tree, Text)> { if Readable(v) then Some((Meaning(v), x)) else None }

  /** Each text is read as what its value means, or not at all where an undefined element left a gap. */
  lemma {:induction false} ValueBack(v: Value, x: Text)
    requires Valid(v) && Delimited(x)
    ensures ReadValue(Print(v) + x) == Due(v, x)
    decreases Size(v)
  {
    hide ReadValue, ReadElements, ReadMembers, ReadString, Join, JoinMembers, Body;
    match v
    case Undefined =>
      assert Print(v) + x == x;
      NothingBack(x);
    case Null => NullBack(x);
    case NotFinite => NullBack(x);
    case Bool(b) => BoolBack(b, x);
    case Num(t) => NumberValueBack(t, x);
    case NegativeZero => NumberValueBack([0x30], x);
    case Str(s) => StringBack(s, x);
    case Arr(xs) => ArrayBack(xs, x);
    case Obj(ms) => ObjectBack(ms, x);
  }

  lemma StringBack(s: Text, x: Text)
    ensures ReadValue(Quote(s) + x) == Some((StrTree(s), x))
  {
    hide ReadString, Quote;
    QuoteLead(s, x);
    QuoteBack(s, x);
  }

  lemma {:induction false} ElementsBack(xs: Items, x: Text)
    requires xs.Item? && ValidItems(xs)
    ensures ReadElements(Join(xs) + ([0x5d] + x)) == if ReadableItems(xs) then Some((Elements(xs), x)) else None
    decreases ItemsSize(xs), 0
  {
    hide ReadValue, Print, Join, Readable, Meaning, Valid, Rest;
    var p, tail := [0x5d] + x, xs.tail;
    JoinIsFirstAndRest(xs, p);
    RestLead(tail, x);
    ValueBack(xs.head, Rest(tail) + p);
    if tail.Item? { ElementsBack(tail, x); } else { assert Elements(xs) == [Meaning(xs.head)]; }
  }

  lemma FirstUnit(xs: Items, x: Text)
    requires xs.Item? && ValidItems(xs) && xs != Item(Undefined, NoItems)
    ensures Join(xs) + ([0x5d] + x) != [] && (Join(xs) + ([0x5d] + x))[0] != 0x5d
  {
    hide Join, Print;
    var p := [0x5d] + x;
    JoinIsFirstAndRest(xs, p);
    RestLead(xs.tail, x);
    PrintLead(xs.head, Rest(xs.tail) + p);
  }

  lemma {:induction false} ArrayBack(xs: Items, x: Text)
    requires ValidItems(xs)
    ensures ReadValue(Print(Arr(xs)) + x) == Due(Arr(xs), x)
    decreases ItemsSize(xs), 1
  {
    var t := Print(Arr(xs)) + x;
    Enclosed(0x5b, Join(xs), 0x5d, x);
    if xs.NoItems? || xs == Item(Undefined, NoItems) {
      assert Join(xs) == [];
      assert t[1..] == [0x5d] + x && t[2..] == x;
    } else {
      hide ReadElements, Join, Valid;
      FirstUnit(xs, x);
      ElementsBack(xs, x);
      if ReadableItems(xs) { assert Elements(xs)[0] == Meaning(xs.head) != UndefinedTree; }
    }
  }

  lemma {:induction false} FieldsBack(ms: Members, x: Text)
    requires ms.Member? && ValidMembers(ms) && AllDefined(ms)
    ensures ReadMembers(JoinMembers(ms) + ([0x7d] + x)) == if ReadableMembers(ms) then Some((Fields(ms), x)) else None
    decreases MembersSize(ms), 0
  {
    hide ReadValue, ReadString, Print, JoinMembers, Quote, Readable, Meaning, Valid, RestMembers;
    var p, rest := [0x7d] + x, ms.rest;
    var y := RestMembers(rest) + p;
    JoinMembersIsFirstAndRest(ms, p);
    QuoteLead(ms.key, [0x3a] + (Print(ms.value) + y));
    QuoteBack(ms.key, [0x3a] + (Print(ms.value) + y));
    assert ([0x3a] + (Print(ms.value) + y))[1..] == Print(ms.value) + y;
    RestMembersLead(rest, x);
    ValueBack(ms.value, y);
    if rest.Member? {
      FieldsBack(rest, x);
      FieldsAreKeys(rest, ms.key);
      assert Fields(ms) == map[ms.key := Meaning(ms.value)] + Fields(rest);
    }
  }

  lemma {:induction false} ObjectBack(ms: Members, x: Text)
    requires ValidMembers(ms)
    ensures ReadValue(Print(Obj(ms)) + x) == Due(Obj(ms), x)
    decreases MembersSize(ms), 1
  {
    var r := Sorted(Defined(ms));
    var t := Print(Obj(ms)) + x;
    PrintedMembers(ms);
    DefinedReadable(ms);
    SortedReadable(Defined(ms));
    hide Sorted, Defined, JoinMembers, Valid, ReadMembers;
    Enclosed(0x7b, JoinMembers(r), 0x7d, x);
    MembersLead(r, x);
    if r.Member? { FieldsBack(r, x); }
  }

  /**
   * The printed text is JSON exactly for values with no undefined element beside others (and not undefined themselves),
   * and any reader of JSON makes of it what the value means.
   */
  lemma PrintReadsBack(v: Value)
    requires Valid(v)
    ensures Read(Print(v)) == if Readable(v) then Some(Meaning(v)) else None
  {
    hide ReadValue, Print;
    ValueBack(v, []);
    assert Print(v) + [] == Print(v);
  }
}
