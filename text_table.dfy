/**
 * The client's pasted-table parser (`parseTextTable` in app.js): every non-blank line that
 * starts with an item number of one to four digits and holds at least one `R$ …d,dd`
 * amount yields one item, whose value is the last amount on the line.
 */
module TextTable {
  import opened Wrappers
  import opened Text
  import opened Currency

  /** One parsed row: the item number and its amount re-rendered by `formatCurrencyBRL`. */
  datatype Item = Item(item: nat, valor: string)

  // ------------------------------------------------------------------ lines

  /** The first line feed at or after `i`, or |s| when there is none. */
  function LineFeedFrom(s: string, i: nat): (k: nat)
    requires i <= |s|
    ensures i <= k <= |s| && (k < |s| ==> s[k] == '\n')
    decreases |s| - i
  {
    if i == |s| || s[i] == '\n' then i else LineFeedFrom(s, i + 1)
  }

  /** A piece before a line feed, without the carriage return `\r?\n` absorbs. */
  function DropCarriageReturn(p: string): string {
    if |p| > 0 && p[|p| - 1] == '\r' then p[..|p| - 1] else p
  }

  /** `raw.split(/\r?\n/)`. */
  function SplitLines(raw: string): (pieces: seq<string>)
    ensures |pieces| >= 1
    decreases |raw|
  {
    var k := LineFeedFrom(raw, 0);
    if k == |raw| then [raw] else [DropCarriageReturn(raw[..k])] + SplitLines(raw[k + 1..])
  }

  /** `.map(l => l.trim()).filter(Boolean)`: the trimmed pieces that are not empty. */
  function NonBlank(pieces: seq<string>): (lines: seq<string>)
    ensures |lines| <= |pieces|
  {
    if pieces == [] then []
    else
      var t := Trim(pieces[0]);
      (if t == "" then [] else [t]) + NonBlank(pieces[1..])
  }

  function Lines(raw: string): seq<string> {
    NonBlank(SplitLines(raw))
  }

  // ------------------------------------------------------------ item number

  /**
   * `line.match(/^\s*(\d{1,4})\b/)` and `parseInt`: after leading white space, a run of one
   * to four digits followed by the end of the line or a character that is not `\w`.
   * A longer run cannot match, as every shorter prefix of it is followed by a digit.
   */
  function ItemNumber(line: string): (r: Option<nat>)
    ensures r.Some? ==> r.value < 10000
  {
    var k := SpaceRunEnd(line, 0);
    var e := DigitRunEnd(line, k);
    if 1 <= e - k <= 4 && (e == |line| || !IsWordChar(line[e])) then
      ShortDigitsBound(line[k..e]);
      Some(DigitsValue(line[k..e]))
    else None
  }

  lemma {:induction false} DigitsValueBound(s: string)
    requires AllDigits(s)
    ensures DigitsValue(s) < Pow10(|s|)
  {
    if s != [] {
      var init := s[..|s| - 1];
      DigitsValueBound(init);
      var v, p := DigitsValue(init), Pow10(|init|);
      assert DigitsValue(s) == v * 10 + DigitValue(s[|s| - 1]);
      assert Pow10(|s|) == p * 10;
      assert v * 10 <= (p - 1) * 10;
    }
  }

  /** A run of at most four digits is below 10000. */
  lemma ShortDigitsBound(s: string)
    requires AllDigits(s) && |s| <= 4
    ensures DigitsValue(s) < 10000
  {
    DigitsValueBound(s);
    assert Pow10(1) == 10 && Pow10(2) == 100 && Pow10(3) == 1000 && Pow10(4) == 10000;
  }

  // ------------------------------------------------------------------ money

  /** One match of `R\$\s*([\d\.\s]*\d,\d{2})`: where it starts and ends, and the captured amount. */
  datatype MoneyMatch = MoneyMatch(start: nat, end: nat, amount: string)

  /** The end of the run of `[\d\.\s]` characters that starts at `i`. */
  function AmountRunEnd(s: string, i: nat): (j: nat)
    requires i <= |s|
    ensures i <= j <= |s| && (j == |s| || !IsAmountChar(s[j]))
    decreases |s| - i
  {
    if i < |s| && IsAmountChar(s[i]) then AmountRunEnd(s, i + 1) else i
  }

  /**
   * The money pattern tried at position `i`. `\s*` takes all the white space after `R$`;
   * the group's `[\d\.\s]*` then takes the whole run of amount characters, and the only way
   * `\d,\d{2}` can follow is by giving back that run's last character, which must be a digit
   * followed by a comma and two digits. Backtracking into `\s*` cannot help, since white
   * space is itself an amount character.
   */
  function MoneyAt(s: string, i: nat): (r: Option<MoneyMatch>)
    ensures r.Some? ==> r.value.start == i && i + 6 <= r.value.end <= |s|
  {
    if i + 2 <= |s| && s[i] == 'R' && s[i + 1] == '$' then
      var p := SpaceRunEnd(s, i + 2);
      var q := AmountRunEnd(s, p);
      if p < q && IsDigit(s[q - 1]) && q + 3 <= |s| && s[q] == ',' && IsDigit(s[q + 1]) && IsDigit(s[q + 2])
      then
        Some(MoneyMatch(i, q + 3, s[p..q + 3]))
      else None
    else None
  }

  /**
   * `line.matchAll(/R\$\s*([\d\.\s]*\d,\d{2})/g)` from position `from`: the leftmost match,
   * then the search resumes where that match ended.
   */
  function MoneyMatchesFrom(s: string, from: nat): seq<MoneyMatch>
    decreases |s| - from
  {
    if from >= |s| then []
    else
      match MoneyAt(s, from)
      case Some(m) => [m] + MoneyMatchesFrom(s, m.end)
      case None => MoneyMatchesFrom(s, from + 1)
  }

  function MoneyMatches(line: string): seq<MoneyMatch> {
    MoneyMatchesFrom(line, 0)
  }

  // ------------------------------------------------------------------- lines to items

  /** What one line contributes: nothing, or the item with the value of its last amount. */
  function ParseLine(line: string): Option<Item> {
    match ItemNumber(line)
    case None => None
    case Some(n) =>
      var ms := MoneyMatches(line);
      if ms == [] then None else Some(Item(n, FormatCurrencyBRL(ms[|ms| - 1].amount)))
  }

  /** The items of a sequence of lines, in line order. */
  function ParsedItems(lines: seq<string>): seq<Item> {
    if lines == [] then []
    else
      var last := ParseLine(lines[|lines| - 1]);
      ParsedItems(lines[..|lines| - 1]) + (if last.Some? then [last.value] else [])
  }

  /** Parsing one more line appends what that line contributes. */
  lemma ParsedItemsStep(ls: seq<string>, i: nat)
    requires i < |ls|
    ensures ParsedItems(ls[..i + 1])
         == ParsedItems(ls[..i]) + (if ParseLine(ls[i]).Some? then [ParseLine(ls[i]).value] else [])
  {
    assert ls[..i + 1][..i] == ls[..i];
  }

  /**
   * `parseTextTable`: one pass over the non-blank lines, pushing the item each line gives
   * (the per-line `match`/`matchAll` and the two `continue`s are `ParseLine`).
   */
  method ParseTextTable(raw: string) returns (items: seq<Item>)
    ensures items == ParsedItems(Lines(raw))
  {
    var lines := Lines(raw);
    items := [];
    for i := 0 to |lines|
      invariant items == ParsedItems(lines[..i])
    {
      ParsedItemsStep(lines, i);
      var parsed := ParseLine(lines[i]);
      if parsed.Some? {
        items := items + [parsed.value];
      }
    }
    assert lines[..|lines|] == lines;
  }

  // ------------------------------------------------------------------ lemmas: lines

  lemma {:induction false} LineFeedFromSkips(s: string, i: nat)
    requires i <= |s|
    ensures forall j | i <= j < LineFeedFrom(s, i) :: s[j] != '\n'
    decreases |s| - i
  {
    if i < |s| && s[i] != '\n' { LineFeedFromSkips(s, i + 1); }
  }

  /** Joining pieces back with line feeds. */
  function JoinLines(pieces: seq<string>): string
    requires |pieces| >= 1
  {
    if |pieces| == 1 then pieces[0] else pieces[0] + "\n" + JoinLines(pieces[1..])
  }

  /** Without carriage returns, splitting at line feeds loses nothing. */
  lemma {:induction false} SplitLinesJoin(raw: string)
    requires forall i | 0 <= i < |raw| :: raw[i] != '\r'
    ensures JoinLines(SplitLines(raw)) == raw
    decreases |raw|
  {
    var k := LineFeedFrom(raw, 0);
    if k < |raw| {
      var head, rest := raw[..k], raw[k + 1..];
      SplitLinesJoin(rest);
      assert DropCarriageReturn(head) == head;
      var pieces := SplitLines(raw);
      assert pieces == [head] + SplitLines(rest);
      assert pieces[1..] == SplitLines(rest);
      assert JoinLines(pieces) == head + "\n" + rest;
      assert raw == head + "\n" + rest;
    }
  }

  /** No piece contains a line feed. */
  lemma {:induction false} SplitLinesNoLineFeed(raw: string, k: nat, j: nat)
    requires k < |SplitLines(raw)| && j < |SplitLines(raw)[k]|
    ensures SplitLines(raw)[k][j] != '\n'
    decreases |raw|
  {
    var f := LineFeedFrom(raw, 0);
    LineFeedFromSkips(raw, 0);
    if f < |raw| {
      if k == 0 {
        assert SplitLines(raw)[0] == DropCarriageReturn(raw[..f]);
        assert SplitLines(raw)[0][j] == raw[j];
      } else {
        assert SplitLines(raw)[k] == SplitLines(raw[f + 1..])[k - 1];
        SplitLinesNoLineFeed(raw[f + 1..], k - 1, j);
      }
    }
  }

  /** The pieces of white-space text are white space. */
  lemma {:induction false} SplitLinesOfSpaces(raw: string)
    requires AllSpaces(raw)
    ensures forall k | 0 <= k < |SplitLines(raw)| :: AllSpaces(SplitLines(raw)[k])
    decreases |raw|
  {
    var k := LineFeedFrom(raw, 0);
    if k < |raw| {
      SplitLinesOfSpaces(raw[k + 1..]);
      assert AllSpaces(raw[..k]);
    }
  }

  /** Non-empty, and neither end is white space: what `trim` leaves of a non-blank string. */
  predicate IsTrimmed(l: string) {
    l != [] && !IsSpace(l[0]) && !IsSpace(l[|l| - 1])
  }

  lemma {:induction false} NonBlankTrimmed(pieces: seq<string>)
    ensures forall k | 0 <= k < |NonBlank(pieces)| :: IsTrimmed(NonBlank(pieces)[k])
  {
    if pieces != [] {
      NonBlankTrimmed(pieces[1..]);
      TrimShape(pieces[0]);
    }
  }

  /** Every line handed to the loop is non-empty and trimmed, so trimming it again changes nothing. */
  lemma LinesTrimmed(raw: string, k: nat)
    requires k < |Lines(raw)|
    ensures IsTrimmed(Lines(raw)[k]) && Trim(Lines(raw)[k]) == Lines(raw)[k]
  {
    NonBlankTrimmed(SplitLines(raw));
    TrimOfTrimmed(Lines(raw)[k]);
  }

  lemma {:induction false} NonBlankOfSpaces(pieces: seq<string>)
    requires forall k | 0 <= k < |pieces| :: AllSpaces(pieces[k])
    ensures NonBlank(pieces) == []
  {
    if pieces != [] {
      TrimAllSpaces(pieces[0]);
      NonBlankOfSpaces(pieces[1..]);
    }
  }

  /** Blank input has no lines, hence no items. */
  lemma BlankTable(raw: string)
    requires AllSpaces(raw)
    ensures Lines(raw) == [] && ParsedItems(Lines(raw)) == []
  {
    SplitLinesOfSpaces(raw);
    NonBlankOfSpaces(SplitLines(raw));
  }

  // ------------------------------------------------------------------ lemmas: item number

  /** White space, one to four digits and then no word character: the item number is read. */
  lemma ItemNumberShape(w: string, d: string, rest: string)
    requires AllSpaces(w) && AllDigits(d) && 1 <= |d| <= 4
    requires rest == [] || !IsWordChar(rest[0])
    ensures ItemNumber(w + d + rest) == Some(DigitsValue(d))
  {
    var line := w + d + rest;
    assert line[..|w|] == w && line[|w|..|w| + |d|] == d;
    assert !IsSpace(line[|w|]);
    SpaceRunEndAt(line, 0, |w|);
    assert |w| + |d| < |line| ==> line[|w| + |d|] == rest[0];
    DigitRunEndAt(line, |w|, |w| + |d|);
  }

  /** Five or more leading digits are not an item number. */
  lemma ItemNumberTooLong(w: string, d: string, rest: string)
    requires AllSpaces(w) && AllDigits(d) && |d| >= 5
    requires rest == [] || !IsDigit(rest[0])
    ensures ItemNumber(w + d + rest) == None
  {
    var line := w + d + rest;
    assert line[..|w|] == w && line[|w|..|w| + |d|] == d;
    assert !IsSpace(line[|w|]);
    SpaceRunEndAt(line, 0, |w|);
    assert |w| + |d| < |line| ==> line[|w| + |d|] == rest[0];
    DigitRunEndAt(line, |w|, |w| + |d|);
  }

  /** Digits glued to a letter or an underscore (`12a`) are not an item number. */
  lemma ItemNumberGlued(w: string, d: string, c: char, rest: string)
    requires AllSpaces(w) && AllDigits(d) && IsWordChar(c) && !IsDigit(c)
    ensures ItemNumber(w + d + [c] + rest) == None
  {
    var line := w + d + [c] + rest;
    assert line[..|w|] == w && line[|w|..|w| + |d|] == d && line[|w| + |d|] == c;
    SpaceRunEndAt(line, 0, |w|);
    DigitRunEndAt(line, |w|, |w| + |d|);
  }

  /** A line that does not start with a digit after its white space has no item number. */
  lemma ItemNumberNeedsDigit(w: string, c: char, rest: string)
    requires AllSpaces(w) && !IsSpace(c) && !IsDigit(c)
    ensures ItemNumber(w + [c] + rest) == None
  {
    var line := w + [c] + rest;
    assert line[..|w|] == w && line[|w|] == c;
    SpaceRunEndAt(line, 0, |w|);
  }

  // ------------------------------------------------------------------ lemmas: money

  lemma {:induction false} AmountRunEndChars(s: string, i: nat)
    requires i <= |s|
    ensures forall k | i <= k < AmountRunEnd(s, i) :: IsAmountChar(s[k])
    decreases |s| - i
  {
    if i < |s| && IsAmountChar(s[i]) { AmountRunEndChars(s, i + 1); }
  }

  /** What a match captures is an amount in the sense of `formatCurrencyBRL`'s input. */
  lemma MoneyAtAmount(s: string, i: nat)
    requires MoneyAt(s, i).Some?
    ensures IsAmountText(MoneyAt(s, i).value.amount)
  {
    var p := SpaceRunEnd(s, i + 2);
    var q := AmountRunEnd(s, p);
    AmountRunEndChars(s, p);
    var a := s[p..q + 3];
    assert forall k | 0 <= k < |a| - 3 :: a[k] == s[p + k];
  }

  lemma {:induction false} AmountRunEndAt(s: string, i: nat, j: nat)
    requires i <= j <= |s| && (forall k | i <= k < j :: IsAmountChar(s[k]))
    requires j == |s| || !IsAmountChar(s[j])
    ensures AmountRunEnd(s, i) == j
    decreases j - i
  {
    if i < j {
      AmountRunEndAt(s, i + 1, j);
    }
  }

  /** `R$` at `i`, a run of white space up to `p`, then an amount that does not start with white space. */
  lemma MoneyAtPieces(s: string, i: nat, p: nat, a: string)
    requires i + 2 <= p && p + |a| <= |s| && s[i] == 'R' && s[i + 1] == '$'
    requires AllSpaces(s[i + 2..p]) && s[p..p + |a|] == a && IsAmountText(a) && !IsSpace(a[0])
    ensures MoneyAt(s, i) == Some(MoneyMatch(i, p + |a|, a))
  {
    SpaceRunEndAt(s, i + 2, p);
    var q := p + |a| - 3;
    assert forall k | p <= k < q :: s[k] == a[k - p];
    assert s[q] == a[|a| - 3];
    AmountRunEndAt(s, p, q);
    assert s[q - 1] == a[|a| - 4] && s[q + 1] == a[|a| - 2] && s[q + 2] == a[|a| - 1];
  }

  /** `R$`, white space, then an amount that does not start with white space: matched, exactly that amount. */
  lemma MoneyAtShape(x: string, w: string, a: string, y: string)
    requires AllSpaces(w) && IsAmountText(a) && !IsSpace(a[0])
    ensures MoneyAt(x + "R$" + w + a + y, |x|) == Some(MoneyMatch(|x|, |x| + 2 + |w| + |a|, a))
  {
    var s := x + "R$" + w + a + y;
    var i, p := |x|, |x| + 2 + |w|;
    assert s[i] == 'R' && s[i + 1] == '$';
    assert s[i + 2..p] == w;
    assert s[p..p + |a|] == a;
    MoneyAtPieces(s, i, p, a);
  }

  /** What a match consists of: `R$`, white space, and the amount, which does not start with white space. */
  lemma MoneyAtParts(s: string, i: nat)
    requires MoneyAt(s, i).Some?
    ensures var m := MoneyAt(s, i).value;
      var p := m.end - |m.amount|;
      i + 2 <= p && HasAt(s, i, "R$") && AllSpaces(s[i + 2..p]) && s[p..m.end] == m.amount
      && !IsSpace(m.amount[0])
  {
  }

  /** No character after the `R` of a match is another `R`, so no match starts inside one. */
  lemma NoMatchInside(s: string, i: nat, j: nat)
    requires MoneyAt(s, i).Some? && i < j < MoneyAt(s, i).value.end
    ensures MoneyAt(s, j) == None
  {
    var m := MoneyAt(s, i).value;
    var p := SpaceRunEnd(s, i + 2);
    var q := AmountRunEnd(s, p);
    AmountRunEndChars(s, p);
    assert s[j] != 'R' by {
      if j >= i + 2 && j < p {
        assert s[i + 2..p][j - i - 2] == s[j];
      }
    }
  }

  /** Every match the scan reports is a match at its own start, at or after `from`. */
  lemma {:induction false} MatchesSound(s: string, from: nat)
    ensures forall k | 0 <= k < |MoneyMatchesFrom(s, from)| ::
      from <= MoneyMatchesFrom(s, from)[k].start && MoneyAt(s, MoneyMatchesFrom(s, from)[k].start) == Some(MoneyMatchesFrom(s, from)[k])
    decreases |s| - from
  {
    if from < |s| {
      match MoneyAt(s, from)
      case Some(m) => MatchesSound(s, m.end);
      case None => MatchesSound(s, from + 1);
    }
  }

  /** The scan finds nothing exactly when no position at or after `from` matches. */
  lemma {:induction false} MatchesEmpty(s: string, from: nat)
    ensures MoneyMatchesFrom(s, from) == [] <==> forall j | from <= j :: MoneyAt(s, j) == None
    decreases |s| - from
  {
    if from >= |s| {
    } else {
      match MoneyAt(s, from)
      case Some(m) =>
      case None =>
        MatchesEmpty(s, from + 1);
        assert forall j | from <= j :: MoneyAt(s, j) == None <==> (j == from || from + 1 <= j ==> MoneyAt(s, j) == None);
    }
  }

  /** The last match reported is the rightmost position where the pattern matches. */
  lemma {:induction false} LastMatchIsRightmost(s: string, from: nat)
    requires MoneyMatchesFrom(s, from) != []
    ensures var ms := MoneyMatchesFrom(s, from);
      forall j | ms[|ms| - 1].start < j :: MoneyAt(s, j) == None
    decreases |s| - from
  {
    match MoneyAt(s, from)
    case Some(m) =>
      var rest := MoneyMatchesFrom(s, m.end);
      if rest == [] {
        NothingAfterMatch(s, from);
      } else {
        LastMatchIsRightmost(s, m.end);
      }
    case None =>
      LastMatchIsRightmost(s, from + 1);
  }

  /** When the scan resumes after a match and finds nothing, no position after that match's start matches. */
  lemma NothingAfterMatch(s: string, i: nat)
    requires MoneyAt(s, i).Some? && MoneyMatchesFrom(s, MoneyAt(s, i).value.end) == []
    ensures forall j | i < j :: MoneyAt(s, j) == None
  {
    var m := MoneyAt(s, i).value;
    MatchesEmpty(s, m.end);
    forall j | i < j < m.end ensures MoneyAt(s, j) == None {
      NoMatchInside(s, i, j);
    }
  }

  // ------------------------------------------------------------------ lemmas: one line

  /** `i` is the rightmost position of `line` where the money pattern matches. */
  predicate LastMoneyAt(line: string, i: nat) {
    MoneyAt(line, i).Some? && forall j | i < j <= |line| :: MoneyAt(line, j) == None
  }

  /**
   * A line with an item number and a rightmost amount at `i` gives that item, valued at the
   * amount's centavos (dots and white space in it ignored) in the canonical `R$` rendering.
   */
  lemma ParseLineValue(line: string, i: nat)
    requires ItemNumber(line).Some? && LastMoneyAt(line, i)
    ensures IsAmountText(MoneyAt(line, i).value.amount)
    ensures ParseLine(line)
         == Some(Item(ItemNumber(line).value, FormatCents(false, AmountCents(MoneyAt(line, i).value.amount))))
  {
    LastMatchAt(line, i);
    MoneyAtAmount(line, i);
    AmountFormat(MoneyAt(line, i).value.amount);
  }

  /** The match `matchAll` lists last is the one at the rightmost matching position. */
  lemma LastMatchAt(line: string, i: nat)
    requires LastMoneyAt(line, i)
    ensures MoneyMatches(line) != [] && MoneyMatches(line)[|MoneyMatches(line)| - 1] == MoneyAt(line, i).value
  {
    var ms := MoneyMatches(line);
    MatchesEmpty(line, 0);
    var last := ms[|ms| - 1];
    MatchesSound(line, 0);
    LastMatchIsRightmost(line, 0);
    assert last.start == i;
  }

  /** A line is dropped exactly when it has no item number or no amount anywhere. */
  lemma ParseLineNone(line: string)
    ensures ParseLine(line).None? <==> ItemNumber(line).None? || forall j :: MoneyAt(line, j) == None
  {
    MatchesEmpty(line, 0);
  }

  // ------------------------------------------------------------------ lemmas: many lines

  /** Lines are parsed independently and in order. */
  lemma {:induction false} ParsedItemsAppend(a: seq<string>, b: seq<string>)
    ensures ParsedItems(a + b) == ParsedItems(a) + ParsedItems(b)
    decreases |b|
  {
    if b != [] {
      var b' := b[..|b| - 1];
      assert (a + b)[..|a + b| - 1] == a + b';
      ParsedItemsAppend(a, b');
    } else {
      assert a + b == a;
    }
  }

  /** Each line contributes at most one item, and each item comes from some line. */
  lemma {:induction false} ParsedItemsOrigin(ls: seq<string>)
    ensures |ParsedItems(ls)| <= |ls|
    ensures forall k | 0 <= k < |ParsedItems(ls)| :: exists l | 0 <= l < |ls| :: ParseLine(ls[l]) == Some(ParsedItems(ls)[k])
  {
    if ls != [] {
      var init := ls[..|ls| - 1];
      ParsedItemsOrigin(init);
      forall k | 0 <= k < |ParsedItems(init)|
        ensures exists l | 0 <= l < |ls| :: ParseLine(ls[l]) == Some(ParsedItems(init)[k])
      {
        var l :| 0 <= l < |init| && ParseLine(init[l]) == Some(ParsedItems(init)[k]);
        assert ls[l] == init[l];
      }
    }
  }

  /** Every item number read from a table has at most four digits. */
  lemma ItemNumbersBelow10000(ls: seq<string>)
    ensures forall k | 0 <= k < |ParsedItems(ls)| :: ParsedItems(ls)[k].item < 10000
  {
    ParsedItemsOrigin(ls);
    forall k | 0 <= k < |ParsedItems(ls)| ensures ParsedItems(ls)[k].item < 10000 {
      var l :| 0 <= l < |ls| && ParseLine(ls[l]) == Some(ParsedItems(ls)[k]);
    }
  }
}
