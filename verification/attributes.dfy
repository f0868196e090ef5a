/**
 * The vertex-attribute declarations a vertex shader's source announces:
 * lines of the form `layout (location = N) in TYPE NAME;`, read one line
 * at a time with word extraction, as `Shader::parseAttributes` does.
 */
module Attributes {
  import opened Wrappers
  import opened Decimal
  import opened LineStream

  /** The two OpenGL component types an attribute can have. */
  datatype GlType = GlInt | GlFloat {
    /** The OpenGL enumerant: `GL_INT` or `GL_FLOAT`. */
    function Code(): (c: int)
      ensures c == 0x1404 || c == 0x1406
      ensures c == 0x1404 <==> this == GlInt
    {
      match this
      case GlInt => 0x1404
      case GlFloat => 0x1406
    }
  }

  datatype Attribute = Attribute(location: Location, glType: GlType, size: int)

  /** A type name the parser does not support aborts the parse. */
  datatype ParseError = UnsupportedType(typeName: string)

  /** `name[i]` on a `std::string`: the index equal to the length reads the terminating NUL. */
  function CharAt(name: string, i: nat): (c: char)
    requires i <= |name|
    ensures i < |name| ==> c == name[i]
    ensures i == |name| ==> c == '\0'
  {
    if i < |name| then name[i] else '\0'
  }

  /**
   * The component type and count for a GLSL type name: `int` and `float`
   * have one component; any name containing `vec` is a float vector whose
   * count is the character at index 3 read as a digit.
   */
  function TypeOf(name: string): (r: Result<(GlType, int), ParseError>)
    ensures r.Err? <==> name != "int" && name != "float" && !Contains(name, "vec")
    ensures r.Err? ==> r.error == UnsupportedType(name)
    ensures r.Ok? ==> (r.value.0 == GlInt <==> name == "int")
    ensures r.Ok? ==> r.value.0.Code() == if name == "int" then 0x1404 else 0x1406
    ensures r.Ok? && (name == "int" || name == "float") ==> r.value.1 == 1
    ensures r.Ok? && 3 < |name| && IsDigit(name[3]) ==> r.value.1 == DigitValue(name[3]) as int
  {
    if name == "int" then Ok((GlInt, 1))
    else if name == "float" then Ok((GlFloat, 1))
    else if Contains(name, "vec") then
      ContainsLength(name, "vec");
      Ok((GlFloat, CharAt(name, 3) as int - '0' as int))
    else Err(UnsupportedType(name))
  }

  /** `stream >> token && token == "layout"` on a fresh stream over the line. */
  predicate OpensWithLayout(line: string) {
    var (s1, first) := ReadWord(Open(line), "");
    !s1.fail && first == "layout"
  }

  /**
   * One line: a line containing `//` anywhere, or whose first word is not
   * `layout`, yields nothing; any other line is a declaration.
   */
  function ParseLine(line: string): (r: Result<Option<Attribute>, ParseError>)
    ensures Contains(line, "//") ==> r == Ok(None)
  {
    if Contains(line, "//") || !OpensWithLayout(line) then Ok(None)
    else ParseDeclaration(ReadWord(Open(line), "").0)
  }

  /**
   * The rest of a declaration, from just after `layout`: skip words up to
   * `=`, read the location, read three more words and take the last as the
   * type name. Failed extractions leave the previous word in place, as the
   * stream does, so a short line ends up with some earlier word as its type.
   */
  function ParseDeclaration(s1: Stream): (r: Result<Option<Attribute>, ParseError>)
    requires s1.Valid()
    ensures r.Ok? ==> r.value.Some?
    ensures r.Ok? ==> r.value.value.glType == GlFloat || r.value.value.size == 1
  {
    var (s2, t2) := SkipPastEquals(s1, "layout");
    var (s3, location) := ReadInt(s2, Unset);
    var (s4, t4) := ReadWord(s3, t2);
    var (s5, t5) := ReadWord(s4, t4);
    var (s6, typeName) := ReadWord(s5, t5);
    match TypeOf(typeName)
    case Ok((glType, size)) => Ok(Some(Attribute(location, glType, size)))
    case Err(e) => Err(e)
  }

  /** `s` begins with the whole word `w`: `w` followed by white space or the end. */
  predicate StartsWithWord(s: string, w: string) {
    |w| <= |s| && s[..|w|] == w && (|s| == |w| || IsSpace(s[|w|]))
  }

  /** A declaration line: no `//`, and `layout` is its first word. */
  predicate IsLayoutLine(line: string) {
    && !Contains(line, "//")
    && exists j :: 0 <= j <= |line| && AllSpace(line[..j]) && StartsWithWord(line[j..], "layout")
  }

  /** When the word reader finds `layout` first, the line begins with that word. */
  lemma FirstWordIsLayout(line: string)
    requires OpensWithLayout(line)
    ensures exists j :: 0 <= j <= |line| && AllSpace(line[..j]) && StartsWithWord(line[j..], "layout")
  {
    var (s1, first) := ReadWord(Open(line), "");
    var j0 := SkipSpace(line, 0);
    assert line[..j0] == line[0..j0];
    assert AllSpace(line[..j0]);
    assert line[j0..][..6] == first;
    assert StartsWithWord(line[j0..], "layout");
  }

  /** When the line begins with the word `layout`, the word reader finds it first. */
  lemma LayoutIsFirstWord(line: string, j: nat)
    requires j <= |line| && AllSpace(line[..j]) && StartsWithWord(line[j..], "layout")
    ensures OpensWithLayout(line)
  {
    var j0 := SkipSpace(line, 0);
    assert line[j] == line[j..][0] == 'l';
    forall m | 0 <= m < j
      ensures IsSpace(line[m])
    {
      assert line[..j][m] == line[m];
    }
    if j0 < j {
      assert false;
    }
    assert j0 == j;
    var k := WordEnd(line, j0);
    forall m | j0 <= m < j0 + 6
      ensures !IsSpace(line[m])
    {
      assert line[m] == line[j0..][..6][m - j0];
    }
    if j0 + 6 < |line| {
      assert line[j0 + 6] == line[j0..][6];
    }
    if k != j0 + 6 {
      assert false;
    }
    assert line[j0..k] == line[j0..][..6];
  }

  /** A line yields nothing exactly when it is not a declaration line. */
  lemma ParseLineSkips(line: string)
    ensures ParseLine(line) == Ok(None) <==> !IsLayoutLine(line)
  {
    if !Contains(line, "//") {
      if OpensWithLayout(line) {
        FirstWordIsLayout(line);
      }
      if j :| 0 <= j <= |line| && AllSpace(line[..j]) && StartsWithWord(line[j..], "layout") {
        LayoutIsFirstWord(line, j);
      }
    }
  }

  /** What one line yields: nothing, an attribute, or the error that aborts the parse. */
  type LineResult = Result<Option<Attribute>, ParseError>

  /** Each line parsed on its own. */
  function ParseLines(lines: seq<string>): (rs: seq<LineResult>)
    ensures |rs| == |lines|
    ensures forall k :: 0 <= k < |lines| ==> rs[k] == ParseLine(lines[k])
  {
    seq(|lines|, k requires 0 <= k < |lines| => ParseLine(lines[k]))
  }

  /**
   * Gather per-line results in order: the first failure aborts, otherwise
   * every attribute found, in order.
   */
  function Gather(rs: seq<LineResult>): (r: Result<seq<Attribute>, ParseError>)
    ensures r.Ok? ==> |r.value| <= |rs|
  {
    if rs == [] then Ok([])
    else
      match rs[0]
      case Err(e) => Err(e)
      case Ok(None) => Gather(rs[1..])
      case Ok(Some(a)) =>
        match Gather(rs[1..])
        case Err(e) => Err(e)
        case Ok(rest) => Ok([a] + rest)
  }

  /**
   * The attributes of a whole vertex shader, in file order. The first
   * unsupported type name aborts the parse.
   */
  function ParseAttributes(lines: seq<string>): (r: Result<seq<Attribute>, ParseError>)
    ensures r.Ok? ==> |r.value| <= |lines|
  {
    Gather(ParseLines(lines))
  }

  /** The number of results that carry an attribute. */
  function CountFound(rs: seq<LineResult>): (n: nat)
    ensures n <= |rs|
  {
    if rs == [] then 0
    else (if rs[0].Ok? && rs[0].value.Some? then 1 else 0) + CountFound(rs[1..])
  }

  /** The number of declaration lines. */
  function CountLayout(lines: seq<string>): (n: nat)
    ensures n <= |lines|
  {
    if lines == [] then 0
    else (if IsLayoutLine(lines[0]) then 1 else 0) + CountLayout(lines[1..])
  }

  /** Gathering fails exactly when some line failed. */
  lemma {:induction false} GatherFails(rs: seq<LineResult>)
    ensures Gather(rs).Err? <==> exists k :: 0 <= k < |rs| && rs[k].Err?
  {
    if rs != [] {
      GatherFails(rs[1..]);
      if k :| 0 <= k < |rs[1..]| && rs[1..][k].Err? {
        assert rs[k + 1].Err?;
      }
      if k :| 0 <= k < |rs| && rs[k].Err? {
        if k > 0 {
          assert rs[1..][k - 1].Err?;
        }
      }
    }
  }

  /** A successful gathering holds one attribute per result that carries one. */
  lemma {:induction false} GatherCount(rs: seq<LineResult>)
    requires Gather(rs).Ok?
    ensures |Gather(rs).value| == CountFound(rs)
  {
    if rs != [] {
      GatherCount(rs[1..]);
    }
  }

  /** A successful gathering of two runs is the gathering of each, concatenated. */
  lemma {:induction false} GatherAppend(a: seq<LineResult>, b: seq<LineResult>)
    requires Gather(a + b).Ok?
    ensures Gather(a).Ok? && Gather(b).Ok?
    ensures Gather(a + b).value == Gather(a).value + Gather(b).value
  {
    if a == [] {
      assert a + b == b;
    } else {
      assert (a + b)[0] == a[0];
      assert (a + b)[1..] == a[1..] + b;
      GatherAppend(a[1..], b);
    }
  }

  /** The parse fails exactly when some line fails. */
  lemma ParseAttributesFails(lines: seq<string>)
    ensures ParseAttributes(lines).Err? <==> exists i :: 0 <= i < |lines| && ParseLine(lines[i]).Err?
  {
    var rs := ParseLines(lines);
    GatherFails(rs);
    if k :| 0 <= k < |rs| && rs[k].Err? {
      assert ParseLine(lines[k]).Err?;
    }
  }

  /** When no line fails, the lines that yield an attribute are the declaration lines. */
  lemma {:induction false} CountFoundLayout(lines: seq<string>)
    requires forall k :: 0 <= k < |lines| ==> ParseLine(lines[k]).Ok?
    ensures CountFound(ParseLines(lines)) == CountLayout(lines)
  {
    if lines != [] {
      var first := ParseLines(lines)[0];
      assert first.Ok? && first.value.Some? <==> IsLayoutLine(lines[0]) by {
        ParseLineSkips(lines[0]);
      }
      assert ParseLines(lines)[1..] == ParseLines(lines[1..]);
      forall k | 0 <= k < |lines[1..]|
        ensures ParseLine(lines[1..][k]).Ok?
      {
        assert lines[1..][k] == lines[k + 1];
      }
      CountFoundLayout(lines[1..]);
    }
  }

  /** A successful parse yields one attribute per declaration line. */
  lemma ParseAttributesCount(lines: seq<string>)
    requires ParseAttributes(lines).Ok?
    ensures |ParseAttributes(lines).value| == CountLayout(lines)
  {
    ParseAttributesFails(lines);
    GatherCount(ParseLines(lines));
    CountFoundLayout(lines);
  }

  /** In a successful gathering, the attribute of result `i` comes after those of the results before it. */
  lemma GatherOrder(rs: seq<LineResult>, i: nat)
    requires Gather(rs).Ok? && i < |rs| && rs[i].Ok? && rs[i].value.Some?
    ensures CountFound(rs[..i]) < |Gather(rs).value|
    ensures Gather(rs).value[CountFound(rs[..i])] == rs[i].value.value
  {
    assert rs == rs[..i] + rs[i..];
    GatherAppend(rs[..i], rs[i..]);
    GatherCount(rs[..i]);
    assert rs[i..][0] == rs[i];
  }

  /** In a successful parse, the lines before `i` yield one attribute per declaration line. */
  lemma PrefixCount(lines: seq<string>, i: nat)
    requires ParseAttributes(lines).Ok? && i <= |lines|
    ensures CountFound(ParseLines(lines)[..i]) == CountLayout(lines[..i])
  {
    ParseAttributesFails(lines);
    assert ParseLines(lines)[..i] == ParseLines(lines[..i]);
    forall k | 0 <= k < i
      ensures ParseLine(lines[..i][k]).Ok?
    {
      assert lines[..i][k] == lines[k];
    }
    CountFoundLayout(lines[..i]);
  }

  /**
   * A successful parse lists the attributes in file order: the declaration
   * on line `i` is preceded by one attribute per declaration line before it.
   */
  lemma ParseAttributesOrder(lines: seq<string>, i: nat)
    requires ParseAttributes(lines).Ok?
    requires i < |lines| && IsLayoutLine(lines[i])
    ensures ParseLine(lines[i]).Ok? && ParseLine(lines[i]).value.Some?
    ensures CountLayout(lines[..i]) < |ParseAttributes(lines).value|
    ensures ParseAttributes(lines).value[CountLayout(lines[..i])] == ParseLine(lines[i]).value.value
  {
    ParseAttributesFails(lines);
    ParseLineSkips(lines[i]);
    GatherOrder(ParseLines(lines), i);
    PrefixCount(lines, i);
  }

  /**
   * The declaration as a shader author writes it:
   * `layout (location = N) in TYPE NAME`, where NAME usually carries the
   * closing `;`.
   */
  function Declaration(location: nat, typeName: string, name: string): (line: string)
    ensures |line| == 25 + |NatToString(location)| + |typeName| + |name|
  {
    "layout" + (" " + ("(location" + (" " + ("=" + AfterEquals(location, typeName, name)))))
  }

  /** What follows `layout (location =` in a rendered declaration. */
  function AfterEquals(location: nat, typeName: string, name: string): string {
    " " + (NatToString(location) + AfterLocation(typeName, name))
  }

  /** What follows the location's digits in a rendered declaration. */
  function AfterLocation(typeName: string, name: string): string {
    ")" + (" " + ("in" + (" " + (typeName + (" " + name)))))
  }

  lemma {:induction false} WithoutFirstChar(s: string, p: string)
    requires |p| > 0 && p[0] !in s
    ensures !Contains(s, p)
    decreases |s|
  {
    if |s| >= |p| {
      assert s[..|p|][0] == s[0];
      WithoutFirstChar(s[1..], p);
    }
  }

  lemma DeclarationHasNoComment(location: nat, typeName: string, name: string)
    requires '/' !in typeName && '/' !in name
    ensures !Contains(Declaration(location, typeName, name), "//")
  {
    WithoutFirstChar(Declaration(location, typeName, name), "//");
  }

  /** The first word of a rendered declaration is `layout`. */
  lemma DeclarationFirstWord(location: nat, typeName: string, name: string)
    ensures var line := Declaration(location, typeName, name);
      && ReadWord(Open(line), "") == (Stream(line, 6, false, false), "layout")
      && line[6..] == " " + ("(location" + (" " + ("=" + AfterEquals(location, typeName, name))))
  {
    var line := Declaration(location, typeName, name);
    var r1 := " " + ("(location" + (" " + ("=" + AfterEquals(location, typeName, name))));
    assert line[0..] == "" + ("layout" + r1);
    WordStep(line, 0, "", "", "layout", r1);
  }

  /** The second word is `(location`. */
  lemma DeclarationSecondWord(location: nat, typeName: string, name: string)
    ensures var line := Declaration(location, typeName, name);
      && ReadWord(Stream(line, 6, false, false), "layout") == (Stream(line, 16, false, false), "(location")
      && line[16..] == " " + ("=" + AfterEquals(location, typeName, name))
  {
    var line := Declaration(location, typeName, name);
    assert line[6..] == " " + ("(location" + (" " + ("=" + AfterEquals(location, typeName, name)))) by {
      DeclarationFirstWord(location, typeName, name);
    }
    WordStep(line, 6, "layout", " ", "(location", " " + ("=" + AfterEquals(location, typeName, name)));
  }

  /** The third word is `=`. */
  lemma DeclarationThirdWord(location: nat, typeName: string, name: string)
    ensures var line := Declaration(location, typeName, name);
      && ReadWord(Stream(line, 16, false, false), "(location") == (Stream(line, 18, false, false), "=")
      && line[18..] == AfterEquals(location, typeName, name)
  {
    var line := Declaration(location, typeName, name);
    assert line[16..] == " " + ("=" + AfterEquals(location, typeName, name)) by {
      DeclarationSecondWord(location, typeName, name);
    }
    WordStep(line, 16, "(location", " ", "=", AfterEquals(location, typeName, name));
  }

  /** The first word is `layout`, and the words up to `=` are `(location` and `=`. */
  lemma DeclarationHead(location: nat, typeName: string, name: string)
    ensures var line := Declaration(location, typeName, name);
      && ReadWord(Open(line), "") == (Stream(line, 6, false, false), "layout")
      && SkipPastEquals(Stream(line, 6, false, false), "layout") == (Stream(line, 18, false, false), "=")
  {
    DeclarationFirstWord(location, typeName, name);
    DeclarationSecondWord(location, typeName, name);
    DeclarationThirdWord(location, typeName, name);
  }

  /** The location is read from the digits after `=`. */
  lemma DeclarationLocation(location: nat, typeName: string, name: string)
    ensures var line := Declaration(location, typeName, name);
      var end := 19 + |NatToString(location)|;
      && ReadInt(Stream(line, 18, false, false), Unset) == (Stream(line, end, false, false), At(location))
      && line[end..] == AfterLocation(typeName, name)
  {
    var line := Declaration(location, typeName, name);
    var digits := NatToString(location);
    assert line[18..] == " " + (digits + AfterLocation(typeName, name)) by {
      DeclarationThirdWord(location, typeName, name);
    }
    ReadIntDigits(Stream(line, 18, false, false), Unset, " ", digits, AfterLocation(typeName, name));
    Remainder(line, 18, " ", digits, AfterLocation(typeName, name));
  }

  /** The word after the location is `)`. */
  lemma DeclarationParen(location: nat, typeName: string, name: string)
    ensures var line := Declaration(location, typeName, name);
      var at := 19 + |NatToString(location)|;
      && ReadWord(Stream(line, at, false, false), "=") == (Stream(line, at + 1, false, false), ")")
      && line[at + 1..] == " " + ("in" + (" " + (typeName + (" " + name))))
  {
    var line := Declaration(location, typeName, name);
    var at := 19 + |NatToString(location)|;
    assert line[at..] == "" + (")" + (" " + ("in" + (" " + (typeName + (" " + name)))))) by {
      DeclarationLocation(location, typeName, name);
    }
    WordStep(line, at, "=", "", ")", " " + ("in" + (" " + (typeName + (" " + name)))));
  }

  /** Then comes the qualifier `in`. */
  lemma DeclarationQualifier(location: nat, typeName: string, name: string)
    ensures var line := Declaration(location, typeName, name);
      var at := 20 + |NatToString(location)|;
      && ReadWord(Stream(line, at, false, false), ")").0 == Stream(line, at + 3, false, false)
      && ReadWord(Stream(line, at, false, false), ")").1 == "in"
      && line[at + 3..] == " " + (typeName + (" " + name))
  {
    var line := Declaration(location, typeName, name);
    var at := 20 + |NatToString(location)|;
    assert line[at..] == " " + ("in" + (" " + (typeName + (" " + name)))) by {
      DeclarationTail(location, typeName, name);
    }
    SpacedWord(line, at, ")", "in", typeName + (" " + name));
    Remainder(line, at, " ", "in", " " + (typeName + (" " + name)));
  }

  /** What follows the `)` of a rendered declaration. */
  lemma DeclarationTail(location: nat, typeName: string, name: string)
    ensures var line := Declaration(location, typeName, name);
      line[20 + |NatToString(location)|..] == " " + ("in" + (" " + (typeName + (" " + name))))
  {
    var d := NatToString(location);
    var rest := " " + ("in" + (" " + (typeName + (" " + name))));
    var head := "layout (location = " + d + ")";
    assert Declaration(location, typeName, name) == head + rest;
    assert |head| == 20 + |d|;
  }

  /** Reading a word that follows one space and is followed by another. */
  lemma SpacedWord(text: string, pos: nat, prev: string, w: string, rest: string)
    requires pos <= |text| && text[pos..] == " " + (w + (" " + rest))
    requires IsWord(w)
    ensures ReadWord(Stream(text, pos, false, false), prev) == (Stream(text, pos + 1 + |w|, false, false), w)
  {
    WordStep(text, pos, prev, " ", w, " " + rest);
  }

  /**
   * Parsing a rendered declaration gives back its location, and the type
   * and size its type name stands for.
   */
  lemma DeclarationRoundTrip(location: nat, typeName: string, name: string)
    requires IsWord(typeName) && IsWord(name)
    requires '/' !in typeName && '/' !in name
    ensures ParseLine(Declaration(location, typeName, name)) == match TypeOf(typeName)
      case Ok((glType, size)) => Ok(Some(Attribute(At(location), glType, size)))
      case Err(e) => Err(e)
  {
    DeclarationHasNoComment(location, typeName, name);
    DeclarationHead(location, typeName, name);
    assert OpensWithLayout(Declaration(location, typeName, name));
    DeclarationLocation(location, typeName, name);
    DeclarationParen(location, typeName, name);
    DeclarationQualifier(location, typeName, name);
    SpacedWord(Declaration(location, typeName, name), 23 + |NatToString(location)|, "in", typeName, name);
  }

  /**
   * A declaration with no word `=` after `layout`, such as one written
   * `(location=0)`: every later extraction fails, the location stays unset
   * and the type name is the last word of the line.
   */
  lemma ParseDeclarationNoEquals(s1: Stream, a: nat, b: nat)
    requires s1.Good() && s1.Valid()
    requires forall a': nat, b': nat :: WordSpan(s1.text, s1.pos, a', b') ==> s1.text[a'..b'] != "="
    requires WordSpan(s1.text, s1.pos, a, b) && AllSpace(s1.text[b..])
    ensures ParseDeclaration(s1) == match TypeOf(s1.text[a..b])
      case Ok((glType, size)) => Ok(Some(Attribute(Unset, glType, size)))
      case Err(e) => Err(e)
  {
    assert !AllSpace(s1.text[s1.pos..]) by {
      assert s1.text[s1.pos..][a - s1.pos] == s1.text[a];
    }
    SkipPastEqualsMisses(s1, "layout");
    var (s2, t2) := SkipPastEquals(s1, "layout");
    var a2: nat, b2: nat :| WordSpan(s1.text, s1.pos, a2, b2) && AllSpace(s1.text[b2..]) && t2 == s1.text[a2..b2];
    LastSpan(s1.text, s1.pos, a, b, a2, b2);
  }

  /** Two words each followed by nothing but white space are the same word. */
  lemma LastSpan(text: string, from: nat, a: nat, b: nat, a2: nat, b2: nat)
    requires WordSpan(text, from, a, b) && AllSpace(text[b..])
    requires WordSpan(text, from, a2, b2) && AllSpace(text[b2..])
    ensures a == a2 && b == b2
  {
    assert forall m :: b <= m < |text| ==> IsSpace(text[m]) by {
      forall m | b <= m < |text|
        ensures IsSpace(text[m])
      {
        assert text[m] == text[b..][m - b];
      }
    }
    assert forall m :: b2 <= m < |text| ==> IsSpace(text[m]) by {
      forall m | b2 <= m < |text|
        ensures IsSpace(text[m])
      {
        assert text[m] == text[b2..][m - b2];
      }
    }
    assert !IsSpace(text[b - 1]) && !IsSpace(text[b2 - 1]);
  }

  /**
   * The declaration written `layout (location=N) in TYPE NAME`, without
   * spaces around `=`, so that `(location=N)` is a single word.
   */
  function UnspacedDeclaration(location: nat, typeName: string, name: string): string {
    "layout" + (" " + (Unspaced(location) + AfterUnspaced(typeName, name)))
  }

  /** The word `(location=N)`. */
  function Unspaced(location: nat): string {
    "(location=" + (NatToString(location) + ")")
  }

  /** What follows `(location=N)` in an unspaced declaration. */
  function AfterUnspaced(typeName: string, name: string): string {
    " " + ("in" + (" " + (typeName + (" " + name))))
  }

  /**
   * Without spaces around `=` the stream never sees the word `=`: the
   * location stays unset and the last word, the attribute's name, is taken
   * as its type, which rejects a line such as `layout (location=0) in vec3
   * aPos;` because `aPos;` names no type.
   */
  lemma UnspacedEquals(location: nat, typeName: string, name: string)
    requires IsWord(typeName) && IsWord(name) && typeName != "=" && name != "="
    requires '/' !in typeName && '/' !in name
    ensures ParseLine(UnspacedDeclaration(location, typeName, name)) == match TypeOf(name)
      case Ok((glType, size)) => Ok(Some(Attribute(Unset, glType, size)))
      case Err(e) => Err(e)
  {
    var line := UnspacedDeclaration(location, typeName, name);
    WithoutFirstChar(line, "//");
    UnspacedHead(location, typeName, name);
    UnspacedSkip(location, typeName, name);
  }

  /** The first word of an unspaced declaration is `layout`. */
  lemma UnspacedHead(location: nat, typeName: string, name: string)
    ensures var line := UnspacedDeclaration(location, typeName, name);
      && ReadWord(Open(line), "") == (Stream(line, 6, false, false), "layout")
      && line[6..] == " " + (Unspaced(location) + AfterUnspaced(typeName, name))
  {
    var line := UnspacedDeclaration(location, typeName, name);
    var rest := " " + (Unspaced(location) + AfterUnspaced(typeName, name));
    assert line[0..] == "" + ("layout" + rest);
    WordStep(line, 0, "", "", "layout", rest);
  }

  /** Looking for `=` in an unspaced declaration reads every word and ends in failure, holding the name. */
  lemma UnspacedSkip(location: nat, typeName: string, name: string)
    requires IsWord(typeName) && IsWord(name) && typeName != "=" && name != "="
    ensures var line := UnspacedDeclaration(location, typeName, name);
      && SkipPastEquals(Stream(line, 6, false, false), "layout").0 == Stream(line, |line|, true, true)
      && SkipPastEquals(Stream(line, 6, false, false), "layout").1 == name
  {
    var line := UnspacedDeclaration(location, typeName, name);
    var at := 7 + |Unspaced(location)|;
    UnspacedWord(location);
    assert line[6..] == " " + (Unspaced(location) + AfterUnspaced(typeName, name)) by {
      UnspacedHead(location, typeName, name);
    }
    WordStep(line, 6, "layout", " ", Unspaced(location), AfterUnspaced(typeName, name));
    UnspacedTail(line, at, Unspaced(location), typeName, name);
  }

  /** `(location=N)` is one word, and not `=`. */
  lemma UnspacedWord(location: nat)
    ensures IsWord(Unspaced(location)) && Unspaced(location) != "="
  {
    var u := Unspaced(location);
    var d := NatToString(location);
    forall m | 0 <= m < |u|
      ensures !IsSpace(u[m])
    {
      if 10 <= m < 10 + |d| {
        assert u[m] == d[m - 10];
      }
    }
  }

  /** The words after `(location=N)`: `in`, the type name and the name, none of them `=`. */
  lemma UnspacedTail(line: string, at: nat, prev: string, typeName: string, name: string)
    requires at <= |line| && line[at..] == AfterUnspaced(typeName, name)
    requires IsWord(typeName) && IsWord(name) && typeName != "=" && name != "="
    ensures SkipPastEquals(Stream(line, at, false, false), prev).0 == Stream(line, |line|, true, true)
    ensures SkipPastEquals(Stream(line, at, false, false), prev).1 == name
  {
    SkipPastWord(Stream(line, at, false, false), prev, " ", "in", " " + (typeName + (" " + name)));
    UnspacedType(line, at + 3, typeName, name);
  }

  /** The type name and then the name. */
  lemma UnspacedType(line: string, at: nat, typeName: string, name: string)
    requires at <= |line| && line[at..] == " " + (typeName + (" " + name))
    requires IsWord(typeName) && IsWord(name) && typeName != "=" && name != "="
    ensures SkipPastEquals(Stream(line, at, false, false), "in").0 == Stream(line, |line|, true, true)
    ensures SkipPastEquals(Stream(line, at, false, false), "in").1 == name
  {
    SkipPastWord(Stream(line, at, false, false), "in", " ", typeName, " " + name);
    var end := at + 1 + |typeName|;
    assert line[end..] == " " + (name + []);
    SkipPastLast(Stream(line, end, false, false), typeName, " ", name);
  }

  /** The three vector widths GLSL has, and the two scalar types. */
  lemma SupportedTypes()
    ensures TypeOf("int") == Ok((GlInt, 1))
    ensures TypeOf("float") == Ok((GlFloat, 1))
    ensures TypeOf("vec2") == Ok((GlFloat, 2))
    ensures TypeOf("vec3") == Ok((GlFloat, 3))
    ensures TypeOf("vec4") == Ok((GlFloat, 4))
    ensures TypeOf("mat4") == Err(UnsupportedType("mat4"))
  {
    assert "vec2"[..3] == "vec";
    assert "vec3"[..3] == "vec";
    assert "vec4"[..3] == "vec";
    assert "mat4"[..3] == "mat" && "mat4"[1..] == "at4";
    assert "at4"[..3] == "at4" && "at4"[1..] == "t4";
  }

  /**
   * Names that merely contain `vec` take whatever character sits at index
   * 3: `ivec3` is a float with 51 components (`'c' - '0'`), and a bare
   * `vec` reads the terminating NUL and gets -48.
   */
  lemma OtherVectorNames()
    ensures TypeOf("ivec3") == Ok((GlFloat, 51))
    ensures TypeOf("vec") == Ok((GlFloat, -48))
  {
    assert "ivec3"[1..][..3] == "vec";
    ContainsAt("ivec3", "vec", 1);
    assert "vec"[..3] == "vec";
  }
}
