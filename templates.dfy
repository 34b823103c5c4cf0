/**
 * Choosing the placeholder delimiters for a DOCX template: the server's `detectDelimiters`,
 * the client's copy of the same tests inside `generateDocxUsingTemplate` (which also refuses
 * a document with no placeholder at all), and the model-to-template mapping on both sides.
 */
module Templates {
  import opened Wrappers
  import opened Text

  /** The four placeholder spellings the code looks for. */
  datatype Style = Curly | Mustache | Brackets | Guillemets

  datatype Delimiters = Delimiters(start: string, end: string)

  /** The docxtemplater options; `delimiters == None` leaves docxtemplater's own `{`/`}`. */
  datatype Options = Options(paragraphLoop: bool, linebreaks: bool, delimiters: Option<Delimiters>)

  function Open(style: Style): (o: string)
    ensures |o| > 0 && !IsSpace(o[0])
  {
    match style
    case Curly => "{"
    case Mustache => "{{"
    case Brackets => "[["
    case Guillemets => "\U{00AB}"
  }

  function Close(style: Style): (c: string)
    ensures |c| > 0 && !IsSpace(c[0])
  {
    match style
    case Curly => "}"
    case Mustache => "}}"
    case Brackets => "]]"
    case Guillemets => "\U{00BB}"
  }

  /** Only the bare-curly pattern has no `\s*` around the field name. */
  predicate AllowsSpaces(style: Style) { style != Curly }

  /** `name` (lower case) occurs at `i`, ignoring ASCII case. */
  predicate NameAt(s: string, i: nat, name: string) {
    i + |name| <= |s| && forall k | 0 <= k < |name| :: LowerAscii(s[i + k]) == name[k]
  }

  /** Where the optional white space after position `i` ends, when the pattern allows it there. */
  function SkipSpaces(s: string, i: nat, spaced: bool): (j: nat)
    requires i <= |s|
    ensures i <= j <= |s|
  {
    if spaced then SpaceRunEnd(s, i) else i
  }

  /**
   * `open`, optional white space when `spaced`, the field `name` in any ASCII case, optional
   * white space, `close`, starting at `i`. The `\s*` runs are greedy and what follows each
   * of them (a letter of the name, the closing delimiter) is not white space, so the whole
   * run is the only way they can match.
   */
  predicate PatternAt(s: string, i: nat, open: string, close: string, spaced: bool, name: string) {
    HasAt(s, i, open)
    && var j := SkipSpaces(s, i + |open|, spaced);
    NameAt(s, j, name)
    && HasAt(s, SkipSpaces(s, j + |name|, spaced), close)
  }

  /** The pattern of `style` for the field `name` matches at `i`. */
  predicate PlaceholderAt(s: string, i: nat, style: Style, name: string) {
    PatternAt(s, i, Open(style), Close(style), AllowsSpaces(style), name)
  }

  /** `/(…ITEM…)|(…VALOR…)/i.test(xml)` for the pattern of `style`. */
  predicate HasStyle(xml: string, style: Style) {
    exists i | 0 <= i < |xml| :: PlaceholderAt(xml, i, style, "item") || PlaceholderAt(xml, i, style, "valor")
  }

  const BaseOptions := Options(true, true, None)

  function WithDelimiters(start: string, end: string): Options {
    Options(true, true, Some(Delimiters(start, end)))
  }

  /** The server's `detectDelimiters`: mustache, then brackets, then guillemets, else the base options. */
  function DetectDelimiters(xml: string): (o: Options)
    ensures o.paragraphLoop && o.linebreaks
  {
    if HasStyle(xml, Mustache) then WithDelimiters("{{", "}}")
    else if HasStyle(xml, Brackets) then WithDelimiters("[[", "]]")
    else if HasStyle(xml, Guillemets) then WithDelimiters("\U{00AB}", "\U{00BB}")
    else BaseOptions
  }

  /** The client's copy: it refuses a document with none of the four patterns, then chooses as the server does. */
  function ClientTemplateOptions(xml: string): (r: Result<Options, string>)
    ensures r.Failure? ==> r.error == "template sem placeholders"
  {
    var hasCurly := HasStyle(xml, Curly);
    var hasMustache := HasStyle(xml, Mustache);
    var hasBrackets := HasStyle(xml, Brackets);
    var hasGuillemets := HasStyle(xml, Guillemets);
    if !(hasCurly || hasMustache || hasBrackets || hasGuillemets) then Failure("template sem placeholders")
    else if hasMustache then Success(WithDelimiters("{{", "}}"))
    else if hasBrackets then Success(WithDelimiters("[[", "]]"))
    else if hasGuillemets then Success(WithDelimiters("\U{00AB}", "\U{00BB}"))
    else Success(BaseOptions)
  }

  // ----------------------------------------------------------------- priority

  /** Mustache outranks brackets, which outrank guillemets; bare curly is the fallback. */
  function Rank(style: Style): nat {
    match style
    case Curly => 0
    case Guillemets => 1
    case Brackets => 2
    case Mustache => 3
  }

  /** The style whose delimiters an option set selects. */
  function StyleOf(o: Options): Style {
    match o.delimiters
    case None => Curly
    case Some(d) =>
      if d == Delimiters("{{", "}}") then Mustache
      else if d == Delimiters("[[", "]]") then Brackets
      else Guillemets
  }

  /**
   * `detectDelimiters` selects the highest-ranked style present in the document, and the
   * bare-curly pattern never decides anything: if no other style is present, the result is
   * the base options, whether or not `{ITEM}` occurs.
   */
  lemma DetectHighestRank(xml: string, other: Style)
    ensures var chosen := StyleOf(DetectDelimiters(xml));
      (chosen == Curly || HasStyle(xml, chosen))
      && (other != Curly && HasStyle(xml, other) ==> Rank(other) <= Rank(chosen))
    ensures StyleOf(DetectDelimiters(xml)) == Curly <==> DetectDelimiters(xml) == BaseOptions
  {
  }

  /** A style found in the document is the one used unless a higher-ranked one is also present. */
  lemma DetectPresentStyle(xml: string, style: Style)
    requires style != Curly && HasStyle(xml, style)
    requires forall higher | Rank(higher) > Rank(style) :: !HasStyle(xml, higher)
    ensures StyleOf(DetectDelimiters(xml)) == style
    ensures DetectDelimiters(xml).delimiters == Some(Delimiters(Open(style), Close(style)))
  {
    assert Rank(Mustache) > Rank(Brackets) > Rank(Guillemets);
  }

  /**
   * The client fails exactly when none of the four patterns is present, and otherwise
   * chooses what the server chooses. The server never fails here: it renders a document
   * without placeholders as it is.
   */
  lemma ClientAgreesWithServer(xml: string)
    ensures ClientTemplateOptions(xml).Failure?
        <==> (forall style :: !HasStyle(xml, style))
    ensures ClientTemplateOptions(xml).Success? ==> ClientTemplateOptions(xml).value == DetectDelimiters(xml)
  {
    if forall style :: !HasStyle(xml, style) {
    } else {
      var style :| HasStyle(xml, style);
      assert HasStyle(xml, Curly) || HasStyle(xml, Mustache) || HasStyle(xml, Brackets) || HasStyle(xml, Guillemets) by {
        match style
        case Curly =>
        case Mustache =>
        case Brackets =>
        case Guillemets =>
      }
    }
  }

  // ----------------------------------------------------------------- spellings

  /** The text of a placeholder: delimiters, optional white space, and the field name. */
  function Spell(style: Style, before: string, name: string, after: string): string {
    Open(style) + before + name + after + Close(style)
  }

  /** The pieces of a placeholder, found at their positions, make a match. */
  lemma PatternFromParts(s: string, i: nat, open: string, close: string, spaced: bool, field: string, j: nat, k: nat)
    requires HasAt(s, i, open) && i + |open| <= j <= |s|
    requires AllSpaces(s[i + |open|..j]) && (spaced || j == i + |open|)
    requires NameAt(s, j, field) && |field| > 0 && !IsSpace(s[j])
    requires j + |field| <= k <= |s| && AllSpaces(s[j + |field|..k]) && (spaced || k == j + |field|)
    requires HasAt(s, k, close) && |close| > 0 && !IsSpace(close[0])
    ensures PatternAt(s, i, open, close, spaced, field)
  {
    if spaced {
      SpaceRunEndAt(s, i + |open|, j);
      assert s[k + 0] == close[0];
      SpaceRunEndAt(s, j + |field|, k);
    }
  }

  /** Where five consecutive pieces sit inside their concatenation. */
  lemma ConcatPieces(o: string, before: string, name: string, after: string, c: string)
    ensures var sp := o + before + name + after + c;
      var j := |o| + |before|;
      var k := j + |name| + |after|;
      |sp| == k + |c|
      && HasAt(sp, 0, o) && HasAt(sp, |o|, before) && HasAt(sp, j, name)
      && HasAt(sp, j + |name|, after) && HasAt(sp, k, c)
  {
  }

  /** The five pieces of a concatenation found at `i` are found at their own positions. */
  lemma PiecesAt(s: string, i: nat, o: string, before: string, name: string, after: string, c: string)
    requires HasAt(s, i, o + before + name + after + c)
    ensures var j := i + |o| + |before|;
      var k := j + |name| + |after|;
      HasAt(s, i, o) && HasAt(s, i + |o|, before) && HasAt(s, j, name)
      && HasAt(s, j + |name|, after) && HasAt(s, k, c)
  {
    var sp := o + before + name + after + c;
    var j := |o| + |before|;
    var k := j + |name| + |after|;
    ConcatPieces(o, before, name, after, c);
    HasAtNested(s, i, sp, 0, o);
    HasAtNested(s, i, sp, |o|, before);
    HasAtNested(s, i, sp, j, name);
    HasAtNested(s, i, sp, j + |name|, after);
    HasAtNested(s, i, sp, k, c);
  }

  /** Delimiters, white space and a field name found one after the other make a match. */
  lemma PiecesMatch(s: string, i: nat, o: string, before: string, name: string, after: string, c: string,
                    spaced: bool, field: string)
    requires var j := i + |o| + |before|;
      HasAt(s, i, o) && HasAt(s, i + |o|, before) && HasAt(s, j, name)
      && HasAt(s, j + |name|, after) && HasAt(s, j + |name| + |after|, c)
    requires SameUpToCase(name, field) && |field| > 0 && !IsSpace(field[0])
    requires AllSpaces(before) && AllSpaces(after) && (!spaced ==> before == [] && after == [])
    requires |c| > 0 && !IsSpace(c[0])
    ensures PatternAt(s, i, o, c, spaced, field)
  {
    var j := i + |o| + |before|;
    SpacesAt(s, i + |o|, before);
    SpacesAt(s, j + |name|, after);
    NameFound(s, j, name, field);
    PatternFromParts(s, i, o, c, spaced, field, j, j + |name| + |after|);
  }

  lemma HasAtMiddle(x: string, p: string, y: string)
    ensures HasAt(x + p + y, |x|, p)
  {
  }

  /** A piece of a piece of `s` is a piece of `s`. */
  lemma HasAtNested(s: string, i: nat, p: string, off: nat, q: string)
    requires HasAt(s, i, p) && HasAt(p, off, q)
    ensures HasAt(s, i + off, q)
  {
    forall t | 0 <= t < |q| ensures s[i + off + t] == q[t] {
      assert s[i + (off + t)] == p[off + t];
    }
  }

  lemma SpacesAt(s: string, i: nat, w: string)
    requires HasAt(s, i, w) && AllSpaces(w)
    ensures AllSpaces(s[i..i + |w|])
  {
    var v := s[i..i + |w|];
    forall t | 0 <= t < |v| ensures IsSpace(v[t]) {
      assert v[t] == s[i + t] == w[t];
    }
  }

  lemma NameFound(s: string, j: nat, name: string, field: string)
    requires HasAt(s, j, name) && SameUpToCase(name, field) && |field| > 0 && !IsSpace(field[0])
    ensures NameAt(s, j, field) && !IsSpace(s[j])
  {
    assert s[j + 0] == name[0];
  }

  /** A spelling found at `i` is a match of its style at `i`. */
  lemma SpellingAt(s: string, i: nat, style: Style, before: string, name: string, after: string, field: string)
    requires HasAt(s, i, Spell(style, before, name, after))
    requires SameUpToCase(name, field) && |field| > 0 && !IsSpace(field[0])
    requires AllSpaces(before) && AllSpaces(after)
    requires !AllowsSpaces(style) ==> before == [] && after == []
    ensures PlaceholderAt(s, i, style, field)
  {
    PiecesAt(s, i, Open(style), before, name, after, Close(style));
    PiecesMatch(s, i, Open(style), before, name, after, Close(style), AllowsSpaces(style), field);
  }

  /**
   * Any placeholder spelling in the document triggers its style: either field name, in any
   * ASCII case, with any white space inside the double and angled delimiters (none inside
   * the bare curly ones).
   */
  lemma SpellingTriggersStyle(x: string, style: Style, before: string, name: string, after: string, y: string)
    requires SameUpToCase(name, "item") || SameUpToCase(name, "valor")
    requires AllSpaces(before) && AllSpaces(after)
    requires !AllowsSpaces(style) ==> before == [] && after == []
    ensures HasStyle(x + Spell(style, before, name, after) + y, style)
  {
    var s := x + Spell(style, before, name, after) + y;
    HasAtMiddle(x, Spell(style, before, name, after), y);
    if SameUpToCase(name, "item") {
      SpellingAt(s, |x|, style, before, name, after, "item");
    } else {
      SpellingAt(s, |x|, style, before, name, after, "valor");
    }
  }

  /** A bare-curly match needs the field name right after the brace. */
  lemma CurlyNeedsName(s: string, i: nat, name: string)
    requires i + 1 < |s| && IsSpace(s[i + 1]) && |name| > 0 && !IsSpace(name[0])
    ensures !PlaceholderAt(s, i, Curly, name)
  {
  }

  /** `{{ item }}` selects the mustache delimiters. */
  lemma MustacheExample()
    ensures DetectDelimiters("{{ item }}").delimiters == Some(Delimiters("{{", "}}"))
  {
    var m := "{{ item }}";
    assert AllSpaces(m[2..3]) by { assert m[2..3][0] == m[2]; }
    assert AllSpaces(m[7..8]) by { assert m[7..8][0] == m[7]; }
    PatternFromParts(m, 0, "{{", "}}", true, "item", 3, 8);
    assert PlaceholderAt(m, 0, Mustache, "item");
  }

  /** `{ ITEM }` is not a bare-curly match: that pattern allows no white space. */
  lemma CurlyExample()
    ensures !HasStyle("{ ITEM }", Curly)
  {
    var s := "{ ITEM }";
    forall i | 0 <= i < |s| ensures !PlaceholderAt(s, i, Curly, "item") && !PlaceholderAt(s, i, Curly, "valor") {
      if i == 0 {
        CurlyNeedsName(s, 0, "item");
        CurlyNeedsName(s, 0, "valor");
      } else {
        assert s[i + 0] != '{';
      }
    }
  }

  // ----------------------------------------------------------------- template files

  /** The two template files; every model other than `wellington` uses Patrícia's. */
  function TemplateFile(model: string): (f: string)
    ensures f == "wellington.docx" <==> model == "wellington"
  {
    if model == "wellington" then "wellington.docx" else "patricia.docx"
  }

  /** The client fetches `modelo_placas/<file>` relative to the page. */
  function ClientTemplatePath(model: string): string {
    "modelo_placas/" + TemplateFile(model)
  }

  /** The server's `templatePathForModel`: the same file under the project root. */
  function TemplatePathForModel(root: string, model: string): string {
    root + "/modelo_placas/" + TemplateFile(model)
  }

  /**
   * Exactly `wellington` maps to the Wellington template; all other strings, the empty one
   * included, to Patrícia's; and the server reads the file the client fetches, under its root.
   */
  lemma TemplatePathCases(root: string, model: string)
    ensures TemplatePathForModel(root, model) == root + "/" + ClientTemplatePath(model)
    ensures TemplatePathForModel(root, model)
         == root + "/modelo_placas/" + (if model == "wellington" then "wellington.docx" else "patricia.docx")
    ensures model != "wellington" ==> TemplatePathForModel(root, model) == TemplatePathForModel(root, "")
  {
  }
}
