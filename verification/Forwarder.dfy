/** Body rewriting for one member: RewriteBody renames the "model" field by successive textual
    replacements, one group of three per entry of the member's model map, in no fixed order. */
module Forwarder {
  import opened Wrappers

  type Cells = seq<Cell>

  // ----- strings.ReplaceAll --------------------------------------------------------------------

  /** Leftmost, non-overlapping replacement of a non-empty pattern. */
  function ReplaceAll(s: string, old_: string, new_: string): string
    requires old_ != []
  {
    if |s| < |old_| then s
    else if old_ <= s then new_ + ReplaceAll(s[|old_|..], old_, new_)
    else [s[0]] + ReplaceAll(s[1..], old_, new_)
  }

  // ----- The rewrite, as the code does it ------------------------------------------------------

  /** The three spellings of the field that are looked for. */
  datatype Style = Compact | Spaced | SingleQuoted {
    function Quote(): char {
      if SingleQuoted? then '\'' else '"'
    }
    function Separator(): string {
      if Spaced? then ": " else ":"
    }
    function Pattern(model: string): (p: string)
      ensures p != []
    {
      [Quote()] + FIELD + [Quote()] + Separator() + [Quote()] + model + [Quote()]
    }
  }

  const FIELD := "model"

  function ReplaceStyle(s: string, style: Style, from: string, to: string): string {
    ReplaceAll(s, style.Pattern(from), style.Pattern(to))
  }

  function ReplaceEntry(s: string, from: string, to: string): string {
    ReplaceStyle(ReplaceStyle(ReplaceStyle(s, Compact, from, to), Spaced, from, to), SingleQuoted, from, to)
  }

  /** The result of visiting the entries in a given order. */
  function RewriteInOrder(s: string, modelMap: map<string, string>, order: seq<string>): string
    requires forall k | k in order :: k in modelMap
  {
    if order == [] then s
    else
      var last := order[|order| - 1];
      ReplaceEntry(RewriteInOrder(s, modelMap, order[..|order| - 1]), last, modelMap[last])
  }

  /** A visiting order of a map: every key exactly once. */
  ghost predicate IsOrder(order: seq<string>, keys: set<string>) {
    && (forall k :: k in order <==> k in keys)
    && forall i, j | 0 <= i < j < |order| :: order[i] != order[j]
  }

  // ----- Text cut at its quotes ----------------------------------------------------------------

  /** A quote character and the quote-free text after it. */
  datatype Cell = Cell(quote: char, text: string)

  predicate IsQuote(c: char) {
    c == '"' || c == '\''
  }

  predicate Plain(s: string) {
    forall i | 0 <= i < |s| :: !IsQuote(s[i])
  }

  predicate Cut(cells: Cells) {
    forall i | 0 <= i < |cells| :: IsQuote(cells[i].quote) && Plain(cells[i].text)
  }

  function Render(cells: Cells): string {
    if cells == [] then [] else [cells[0].quote] + cells[0].text + Render(cells[1..])
  }

  /** The text before the first quote, and the cells after it. */
  function Head(s: string): string {
    if s == [] || IsQuote(s[0]) then [] else [s[0]] + Head(s[1..])
  }

  function Rest(s: string): Cells {
    if s == [] then []
    else if IsQuote(s[0]) then [Cell(s[0], Head(s[1..]))] + Rest(s[1..])
    else Rest(s[1..])
  }

  lemma RenderCons(cell: Cell, cells: Cells)
    ensures Render([cell] + cells) == [cell.quote] + cell.text + Render(cells)
    ensures IsQuote(cell.quote) && Plain(cell.text) && Cut(cells) ==> Cut([cell] + cells)
  {
    assert ([cell] + cells)[1..] == cells;
  }

  lemma CutAtQuote(s: string)
    requires s != [] && IsQuote(s[0]) && Plain(Head(s[1..])) && Cut(Rest(s[1..]))
    requires Head(s[1..]) + Render(Rest(s[1..])) == s[1..]
    ensures Head(s) == [] && Cut(Rest(s)) && Render(Rest(s)) == s
  {
    var head, rest := Head(s[1..]), Rest(s[1..]);
    Assoc([s[0]], head, Render(rest));
    RenderCons(Cell(s[0], head), rest);
    assert s == [s[0]] + s[1..];
  }

  lemma {:induction false} CutRoundTrip(s: string)
    ensures Plain(Head(s)) && Cut(Rest(s))
    ensures Head(s) + Render(Rest(s)) == s
  {
    if s != [] {
      CutRoundTrip(s[1..]);
      if IsQuote(s[0]) {
        CutAtQuote(s);
      } else {
        Assoc([s[0]], Head(s[1..]), Render(Rest(s)));
      }
    }
  }

  // ----- One replacement pass, on cells --------------------------------------------------------

  /** The cell at t is the value of a complete "model" field spelled in the given style. */
  predicate Site(cells: Cells, t: nat, style: Style) {
    && 2 <= t && t + 1 < |cells|
    && cells[t - 2] == Cell(style.Quote(), FIELD)
    && cells[t - 1] == Cell(style.Quote(), style.Separator())
    && cells[t].quote == style.Quote()
    && cells[t + 1].quote == style.Quote()
  }

  /** The field at t is replaced by a pass for the given model: it names that model, and its
      opening quote is not the closing quote of a field the same pass has just replaced. */
  predicate Hit(cells: Cells, t: nat, style: Style, model: string) {
    && Site(cells, t, style)
    && cells[t].text == model
    && !(5 <= t && Hit(cells, t - 3, style, model))
  }

  /** The scan of one pass. A replaced field consumes its closing quote with it. */
  function Pass(cells: Cells, style: Style, from: string, to: string): Cells {
    if cells == [] then []
    else if Site(cells, 2, style) && cells[2].text == from then
      [cells[0], cells[1], Cell(cells[2].quote, to), cells[3]] + Pass(cells[4..], style, from, to)
    else [cells[0]] + Pass(cells[1..], style, from, to)
  }

  lemma {:induction false} HitInSuffix(cells: Cells, d: nat, t: nat, style: Style, model: string)
    requires model != FIELD
    requires (d == 1 && !Hit(cells, 2, style, model)) || (d == 4 && Hit(cells, 2, style, model))
    requires d <= t < |cells|
    ensures Hit(cells, t, style, model) == Hit(cells[d..], t - d, style, model)
    decreases t
  {
    if d + 3 <= t {
      HitInSuffix(cells, d, t - 3, style, model);
    }
    if 5 <= t && t < d + 3 {
      HitEarly(cells, d, t, style, model);
    }
  }

  lemma HitEarly(cells: Cells, d: nat, t: nat, style: Style, model: string)
    requires model != FIELD
    requires d == 4 && Hit(cells, 2, style, model)
    requires 5 <= t < 7 && t < |cells|
    ensures t == 5 ==> !Hit(cells, t, style, model)
    ensures t == 6 ==> !Hit(cells, 3, style, model)
  {
  }

  /** What one pass does to each cell. */
  lemma {:induction false} PassAt(cells: Cells, style: Style, from: string, to: string)
    requires from != FIELD
    ensures |Pass(cells, style, from, to)| == |cells|
    ensures forall t: nat | t < |cells| ::
              Pass(cells, style, from, to)[t] ==
              if Hit(cells, t, style, from) then Cell(cells[t].quote, to) else cells[t]
  {
    if cells != [] {
      var d := if Hit(cells, 2, style, from) then 4 else 1;
      var rest := cells[d..];
      PassAt(rest, style, from, to);
      forall t: nat | d <= t < |cells|
        ensures Pass(cells, style, from, to)[t] ==
                if Hit(cells, t, style, from) then Cell(cells[t].quote, to) else cells[t]
      {
        HitInSuffix(cells, d, t, style, from);
        assert Pass(cells, style, from, to)[t] == Pass(rest, style, from, to)[t - d];
      }
    }
  }

  // ----- A pass on text is a pass on cells -----------------------------------------------------

  lemma PrefixCons(a: char, s: string, b: char, t: string)
    ensures [a] + s <= [b] + t <==> a == b && s <= t
  {
    if [a] + s <= [b] + t {
      assert ([a] + s)[0] == a && ([b] + t)[0] == b;
      assert s == ([b] + t)[..1 + |s|][1..] == t[..|s|];
    }
  }

  /** Prefixes that run up to a quote can be compared piece by piece. */
  lemma {:induction false} PeelText(u: string, r: string, w: string, r': string)
    requires Plain(u) && Plain(w)
    requires r != [] && IsQuote(r[0])
    requires r' != [] ==> IsQuote(r'[0])
    ensures u + r <= w + r' <==> u == w && r <= r'
  {
    if u == [] {
      assert u + r == r;
      if w == [] {
        assert w + r' == r';
      } else {
        assert (w + r')[0] == w[0];
      }
    } else if w == [] {
      assert w + r' == r' && (u + r)[0] == u[0];
    } else {
      PeelText(u[1..], r, w[1..], r');
      assert u + r == [u[0]] + (u[1..] + r) && w + r' == [w[0]] + (w[1..] + r');
      assert u == [u[0]] + u[1..] && w == [w[0]] + w[1..];
      PrefixCons(u[0], u[1..] + r, w[0], w[1..] + r');
    }
  }

  lemma PeelCell(quote: char, u: string, r: string, cells: Cells)
    requires Cut(cells) && Plain(u)
    requires r != [] && IsQuote(r[0])
    ensures [quote] + u + r <= Render(cells) <==>
            cells != [] && cells[0] == Cell(quote, u) && r <= Render(cells[1..])
  {
    if cells != [] {
      assert [quote] + u + r == [quote] + (u + r);
      assert Render(cells) == [cells[0].quote] + (cells[0].text + Render(cells[1..]));
      PeelText(u, r, cells[0].text, Render(cells[1..]));
      PrefixCons(quote, u + r, cells[0].quote, cells[0].text + Render(cells[1..]));
    }
  }

  lemma PrependCell(cells: Cells, r: string, x: string)
    requires cells != [] && Render(cells[1..]) == r + x
    ensures Render(cells) == ([cells[0].quote] + cells[0].text + r) + x
  {
  }

  /** The pattern, piece by piece. */
  function Pieces(quote: char, field: string, separator: string, model: string): string {
    [quote] + field + ([quote] + separator + ([quote] + model + [quote]))
  }

  lemma PatternPieces(style: Style, model: string)
    ensures style.Pattern(model) == Pieces(style.Quote(), FIELD, style.Separator(), model)
  {
  }

  lemma PiecesAtFront(cells: Cells, q: char, field: string, separator: string, model: string)
    requires Cut(cells) && IsQuote(q) && Plain(field) && Plain(separator) && Plain(model)
    ensures Pieces(q, field, separator, model) <= Render(cells) <==>
            && |cells| > 3 && cells[0] == Cell(q, field) && cells[1] == Cell(q, separator)
            && cells[2] == Cell(q, model) && cells[3].quote == q
  {
    var r2 := [q] + model + [q];
    PeelCell(q, field, [q] + separator + r2, cells);
    if 1 < |cells| {
      PeelCell(q, separator, r2, cells[1..]);
      assert cells[1..][1..] == cells[2..];
      if 2 < |cells| {
        PeelCell(q, model, [q], cells[2..]);
        assert cells[2..][1..] == cells[3..];
      }
    }
  }

  lemma PiecesThenRest(cells: Cells, q: char, field: string, separator: string, model: string)
    requires |cells| > 3 && cells[0] == Cell(q, field) && cells[1] == Cell(q, separator)
    requires cells[2] == Cell(q, model) && cells[3].quote == q
    ensures Render(cells) == Pieces(q, field, separator, model) + (cells[3].text + Render(cells[4..]))
  {
    var x := cells[3].text + Render(cells[4..]);
    assert cells[1..][1..] == cells[2..] && cells[2..][1..] == cells[3..] && cells[3..][1..] == cells[4..];
    assert Render(cells[3..]) == [q] + x;
    PrependCell(cells[2..], [q], x);
    PrependCell(cells[1..], [q] + model + [q], x);
    PrependCell(cells, [q] + separator + ([q] + model + [q]), x);
  }

  /** The pattern stands at the front of a rendered text exactly when the first field is a
      site with that value. */
  lemma PatternAtFront(cells: Cells, style: Style, model: string)
    requires Cut(cells) && Plain(model)
    ensures style.Pattern(model) <= Render(cells) <==> Site(cells, 2, style) && cells[2].text == model
    ensures Site(cells, 2, style) && cells[2].text == model ==>
              Render(cells) == style.Pattern(model) + (cells[3].text + Render(cells[4..]))
  {
    PatternPieces(style, model);
    PiecesAtFront(cells, style.Quote(), FIELD, style.Separator(), model);
    if Site(cells, 2, style) && cells[2].text == model {
      PiecesThenRest(cells, style.Quote(), FIELD, style.Separator(), model);
    }
  }

  lemma {:induction false} SkipPlain(u: string, r: string, old_: string, new_: string)
    requires Plain(u)
    requires old_ != [] && IsQuote(old_[0])
    ensures ReplaceAll(u + r, old_, new_) == u + ReplaceAll(r, old_, new_)
  {
    if u == [] {
      assert u + r == r;
    } else {
      SkipPlain(u[1..], r, old_, new_);
      assert (u + r)[1..] == u[1..] + r;
      assert u == [u[0]] + u[1..];
      if |r| < |old_| {
        assert ReplaceAll(r, old_, new_) == r;
      }
    }
  }

  lemma ReplaceHere(x: string, old_: string, new_: string)
    requires old_ != []
    ensures ReplaceAll(old_ + x, old_, new_) == new_ + ReplaceAll(x, old_, new_)
  {
  }

  lemma ReplaceLater(s: string, old_: string, new_: string)
    requires old_ != [] && s != [] && !(old_ <= s)
    ensures ReplaceAll(s, old_, new_) == [s[0]] + ReplaceAll(s[1..], old_, new_)
  {
  }

  lemma {:induction false} PassIsCut(cells: Cells, style: Style, from: string, to: string)
    requires Cut(cells) && Plain(to)
    ensures Cut(Pass(cells, style, from, to))
  {
    if cells != [] {
      PassIsCut(cells[if Site(cells, 2, style) && cells[2].text == from then 4 else 1..], style, from, to);
    }
  }

  /** Replacing text is replacing cells. */
  lemma {:induction false} PassIsReplace(cells: Cells, style: Style, from: string, to: string)
    requires Cut(cells) && Plain(from) && Plain(to)
    ensures ReplaceStyle(Render(cells), style, from, to) == Render(Pass(cells, style, from, to))
  {
    if cells != [] {
      PatternAtFront(cells, style, from);
      if Site(cells, 2, style) && cells[2].text == from {
        PassIsCut(cells[4..], style, from, to);
        PassIsReplace(cells[4..], style, from, to);
        PassOverSite(cells, style, from, to);
      } else {
        PassIsReplace(cells[1..], style, from, to);
        PassOverCell(cells, style, from, to);
      }
    }
  }

  lemma PassOverSite(cells: Cells, style: Style, from: string, to: string)
    requires Cut(cells) && Plain(from) && Plain(to)
    requires Site(cells, 2, style) && cells[2].text == from
    requires Cut(Pass(cells[4..], style, from, to))
    requires ReplaceStyle(Render(cells[4..]), style, from, to) == Render(Pass(cells[4..], style, from, to))
    ensures ReplaceStyle(Render(cells), style, from, to) == Render(Pass(cells, style, from, to))
  {
    var passed := Pass(cells, style, from, to);
    PatternAtFront(cells, style, from);
    ReplaceHere(cells[3].text + Render(cells[4..]), style.Pattern(from), style.Pattern(to));
    SkipPlain(cells[3].text, Render(cells[4..]), style.Pattern(from), style.Pattern(to));
    assert passed[4..] == Pass(cells[4..], style, from, to);
    PatternAtFront(passed, style, to);
  }

  lemma PassOverCell(cells: Cells, style: Style, from: string, to: string)
    requires Cut(cells) && cells != []
    requires !(style.Pattern(from) <= Render(cells))
    requires !(Site(cells, 2, style) && cells[2].text == from)
    requires ReplaceStyle(Render(cells[1..]), style, from, to) == Render(Pass(cells[1..], style, from, to))
    ensures ReplaceStyle(Render(cells), style, from, to) == Render(Pass(cells, style, from, to))
  {
    ReplaceOver(cells[0].quote, cells[0].text, Render(cells[1..]), style.Pattern(from), style.Pattern(to));
    var passed := Pass(cells, style, from, to);
    assert passed[0] == cells[0] && passed[1..] == Pass(cells[1..], style, from, to);
  }

  lemma ReplaceOver(quote: char, text: string, after: string, old_: string, new_: string)
    requires Plain(text)
    requires old_ != [] && IsQuote(old_[0]) && !(old_ <= [quote] + text + after)
    ensures ReplaceAll([quote] + text + after, old_, new_) == [quote] + text + ReplaceAll(after, old_, new_)
  {
    ReplaceLater([quote] + text + after, old_, new_);
    assert ([quote] + text + after)[1..] == text + after;
    SkipPlain(text, after, old_, new_);
  }

  // ----- The rewrite, order-free ---------------------------------------------------------------

  /** What the model names must look like for the textual patterns to be unambiguous. */
  ghost predicate Clean(modelMap: map<string, string>) {
    forall k | k in modelMap ::
      Plain(k) && Plain(modelMap[k]) && k != FIELD && modelMap[k] != FIELD
  }

  /** No value is the key of an entry that would rename it again. */
  ghost predicate Settled(modelMap: map<string, string>) {
    forall k | k in modelMap && modelMap[k] in modelMap :: modelMap[modelMap[k]] == modelMap[k]
  }

  /** The cells after the passes in done: fields whose own style and name have been visited
      carry their new name, every other cell is as it was. */
  ghost function Partial(cells: Cells, modelMap: map<string, string>, done: set<(Style, string)>): (r: Cells)
    ensures |r| == |cells|
  {
    seq(|cells|, t requires 0 <= t < |cells| =>
      if Due(cells, t, modelMap, done) then Cell(cells[t].quote, modelMap[cells[t].text]) else cells[t])
  }

  ghost predicate Due(cells: Cells, t: nat, modelMap: map<string, string>, done: set<(Style, string)>)
    requires t < |cells|
  {
    && cells[t].text in modelMap
    && exists style :: Hit(cells, t, style, cells[t].text) && (style, cells[t].text) in done
  }

  /** The rewritten text in one step: every field that a pass for its own name replaces gets
      that name's entry, all from the original text. */
  ghost function Renamed(s: string, modelMap: map<string, string>): string {
    Head(s) + Render(Partial(Rest(s), modelMap, AllPasses(modelMap.Keys)))
  }

  ghost function AllPasses(keys: set<string>): set<(Style, string)> {
    set style: Style, k | k in keys :: (style, k)
  }

  /** Renaming some fields neither makes nor destroys a site. */
  lemma SitesKept(cells: Cells, modelMap: map<string, string>, done: set<(Style, string)>, t: nat, style: Style)
    requires Clean(modelMap)
    ensures Site(Partial(cells, modelMap, done), t, style) == Site(cells, t, style)
  {
  }

  lemma {:induction false} HitsKept(cells: Cells, modelMap: map<string, string>, done: set<(Style, string)>,
                                    t: nat, style: Style, k: string)
    requires Clean(modelMap) && Settled(modelMap)
    requires k in modelMap && modelMap[k] != k && (style, k) !in done
    requires t < |cells|
    ensures Hit(Partial(cells, modelMap, done), t, style, k) == Hit(cells, t, style, k)
    decreases t
  {
    SitesKept(cells, modelMap, done, t, style);
    if 5 <= t {
      HitsKept(cells, modelMap, done, t - 3, style, k);
    }
    if Site(cells, t, style) {
      NameKept(cells, modelMap, done, t, style, k);
    }
  }

  lemma NameKept(cells: Cells, modelMap: map<string, string>, done: set<(Style, string)>,
                 t: nat, style: Style, k: string)
    requires Settled(modelMap)
    requires k in modelMap && modelMap[k] != k && (style, k) !in done
    requires t < |cells| && Site(cells, t, style)
    ensures Partial(cells, modelMap, done)[t].text == k <==> cells[t].text == k
  {
  }

  lemma PartialStep(cells: Cells, modelMap: map<string, string>, done: set<(Style, string)>, style: Style, k: string)
    requires Clean(modelMap) && Settled(modelMap)
    requires k in modelMap && (style, k) !in done
    ensures Pass(Partial(cells, modelMap, done), style, k, modelMap[k]) ==
            Partial(cells, modelMap, done + {(style, k)})
  {
    var mid := Partial(cells, modelMap, done);
    var next := Partial(cells, modelMap, done + {(style, k)});
    var passed := Pass(mid, style, k, modelMap[k]);
    PassAt(mid, style, k, modelMap[k]);
    forall t: nat | t < |cells| ensures passed[t] == next[t] {
      if modelMap[k] != k {
        HitsKept(cells, modelMap, done, t, style, k);
      }
    }
  }

  lemma PartialIsCut(cells: Cells, modelMap: map<string, string>, done: set<(Style, string)>)
    requires Cut(cells) && Clean(modelMap)
    ensures Cut(Partial(cells, modelMap, done))
  {
  }

  lemma ReplaceInText(head: string, cells: Cells, style: Style, from: string, to: string)
    requires Plain(head) && Cut(cells) && Plain(from) && Plain(to)
    ensures ReplaceStyle(head + Render(cells), style, from, to) == head + Render(Pass(cells, style, from, to))
  {
    SkipPlain(head, Render(cells), style.Pattern(from), style.Pattern(to));
    PassIsReplace(cells, style, from, to);
  }

  lemma StyleStep(head: string, cells: Cells, modelMap: map<string, string>, done: set<(Style, string)>,
                  style: Style, k: string)
    requires Plain(head) && Cut(cells) && Clean(modelMap) && Settled(modelMap)
    requires k in modelMap && (style, k) !in done
    ensures ReplaceStyle(head + Render(Partial(cells, modelMap, done)), style, k, modelMap[k]) ==
            head + Render(Partial(cells, modelMap, done + {(style, k)}))
  {
    PartialIsCut(cells, modelMap, done);
    ReplaceInText(head, Partial(cells, modelMap, done), style, k, modelMap[k]);
    PartialStep(cells, modelMap, done, style, k);
  }

  lemma EntryStep(head: string, cells: Cells, modelMap: map<string, string>, done: set<string>, k: string)
    requires Plain(head) && Cut(cells) && Clean(modelMap) && Settled(modelMap)
    requires k in modelMap && k !in done
    ensures ReplaceEntry(head + Render(Partial(cells, modelMap, AllPasses(done))), k, modelMap[k]) ==
            head + Render(Partial(cells, modelMap, AllPasses(done + {k})))
  {
    var d0 := AllPasses(done);
    var d1 := d0 + {(Compact, k)};
    var d2 := d1 + {(Spaced, k)};
    StyleStep(head, cells, modelMap, d0, Compact, k);
    StyleStep(head, cells, modelMap, d1, Spaced, k);
    StyleStep(head, cells, modelMap, d2, SingleQuoted, k);
    forall p ensures p in d2 + {(SingleQuoted, k)} <==> p in AllPasses(done + {k}) {
      assert p.0 == Compact || p.0 == Spaced || p.0 == SingleQuoted;
    }
    assert d2 + {(SingleQuoted, k)} == AllPasses(done + {k});
  }

  ghost function Members(order: seq<string>): set<string> {
    set k | k in order
  }

  /** Every visiting order gives the one-step rewriting. */
  lemma {:induction false} OrderedIsRenamed(s: string, modelMap: map<string, string>, order: seq<string>)
    requires Clean(modelMap) && Settled(modelMap)
    requires forall k | k in order :: k in modelMap
    requires forall i, j | 0 <= i < j < |order| :: order[i] != order[j]
    ensures RewriteInOrder(s, modelMap, order) ==
            Head(s) + Render(Partial(Rest(s), modelMap, AllPasses(Members(order))))
  {
    CutRoundTrip(s);
    if order == [] {
      assert Partial(Rest(s), modelMap, AllPasses(Members(order))) == Rest(s);
    } else {
      var front, last := order[..|order| - 1], order[|order| - 1];
      OrderedIsRenamed(s, modelMap, front);
      EntryStep(Head(s), Rest(s), modelMap, Members(front), last);
      assert Members(front) + {last} == Members(order) by {
        assert order == front + [last];
      }
    }
  }

  // ----- A field spelled out --------------------------------------------------------------------

  /** The three spellings, as text. */
  lemma Spellings(model: string)
    ensures Compact.Pattern(model) == "\"model\":\"" + model + "\""
    ensures Spaced.Pattern(model) == "\"model\": \"" + model + "\""
    ensures SingleQuoted.Pattern(model) == "'model':'" + model + "'"
  {
  }

  lemma {:induction false} CutPlain(u: string, s: string)
    requires Plain(u)
    ensures Head(u + s) == u + Head(s) && Rest(u + s) == Rest(s)
  {
    if u == [] {
      assert u + s == s;
    } else {
      CutPlain(u[1..], s);
      assert (u + s)[1..] == u[1..] + s && u == [u[0]] + u[1..];
    }
  }

  lemma {:induction false} CutOfRender(cells: Cells)
    requires Cut(cells)
    ensures Head(Render(cells)) == [] && Rest(Render(cells)) == cells
  {
    if cells != [] {
      var c, rest := cells[0], cells[1..];
      CutOfRender(rest);
      var text := c.text + Render(rest);
      CutPlain(c.text, Render(rest));
      assert Render(cells) == [c.quote] + text && ([c.quote] + text)[1..] == text;
      assert c.text + [] == c.text;
    }
  }

  /** The cells of a text that holds one field, in this style, for this model. */
  ghost function Spelled(style: Style, model: string, tail: string): Cells {
    [Cell(style.Quote(), FIELD), Cell(style.Quote(), style.Separator()), Cell(style.Quote(), model), Cell(style.Quote(), tail)]
  }

  lemma SpelledText(style: Style, model: string, head: string, tail: string)
    requires Plain(head) && Plain(model) && Plain(tail)
    ensures Cut(Spelled(style, model, tail))
    ensures head + (style.Pattern(model) + tail) == head + Render(Spelled(style, model, tail))
    ensures Head(head + (style.Pattern(model) + tail)) == head
    ensures Rest(head + (style.Pattern(model) + tail)) == Spelled(style, model, tail)
  {
    var c := Spelled(style, model, tail);
    PiecesThenRest(c, style.Quote(), FIELD, style.Separator(), model);
    PatternPieces(style, model);
    assert c[4..] == [] && tail + [] == tail;
    CutOfRender(c);
    CutPlain(head, Render(c));
    assert head + [] == head;
  }

  lemma SpelledIsRenamed(style: Style, model: string, tail: string, modelMap: map<string, string>)
    requires Plain(model) && model in modelMap && model != FIELD
    ensures Partial(Spelled(style, model, tail), modelMap, AllPasses(modelMap.Keys)) ==
            Spelled(style, modelMap[model], tail)
  {
    var c := Spelled(style, model, tail);
    assert Hit(c, 2, style, model) && (style, model) in AllPasses(modelMap.Keys);
    assert forall t: nat, x: Style, m | t < 4 && t != 2 :: !Hit(c, t, x, m);
  }

  /** A body with one model field: whichever of the three spellings it has, the field gets the entry of
      its model, in every visiting order, and nothing else changes. */
  lemma FieldIsRenamed(modelMap: map<string, string>, order: seq<string>, model: string, head: string, tail: string)
    requires Clean(modelMap) && Settled(modelMap) && IsOrder(order, modelMap.Keys)
    requires model in modelMap && Plain(head) && Plain(tail)
    ensures RewriteInOrder(head + ("\"model\":\"" + model + "\"" + tail), modelMap, order) ==
            head + ("\"model\":\"" + modelMap[model] + "\"" + tail)
    ensures RewriteInOrder(head + ("\"model\": \"" + model + "\"" + tail), modelMap, order) ==
            head + ("\"model\": \"" + modelMap[model] + "\"" + tail)
    ensures RewriteInOrder(head + ("'model':'" + model + "'" + tail), modelMap, order) ==
            head + ("'model':'" + modelMap[model] + "'" + tail)
  {
    Spellings(model);
    Spellings(modelMap[model]);
    SpelledFieldIsRenamed(Compact, modelMap, order, model, head, tail);
    SpelledFieldIsRenamed(Spaced, modelMap, order, model, head, tail);
    SpelledFieldIsRenamed(SingleQuoted, modelMap, order, model, head, tail);
  }

  lemma SpelledFieldIsRenamed(style: Style, modelMap: map<string, string>, order: seq<string>,
                              model: string, head: string, tail: string)
    requires Clean(modelMap) && Settled(modelMap) && IsOrder(order, modelMap.Keys)
    requires model in modelMap && Plain(head) && Plain(tail)
    ensures RewriteInOrder(head + (style.Pattern(model) + tail), modelMap, order) ==
            head + (style.Pattern(modelMap[model]) + tail)
  {
    var to := modelMap[model];
    SpelledText(style, model, head, tail);
    SpelledText(style, to, head, tail);
    SpelledIsRenamed(style, model, tail, modelMap);
    OrderedIsRenamed(head + (style.Pattern(model) + tail), modelMap, order);
    assert Members(order) == modelMap.Keys;
  }

  /** RewriteBody: the entries are visited in whatever order the map yields them. */
  method RewriteBody(body: string, modelMap: map<string, string>) returns (r: string)
    ensures exists order ::
              IsOrder(order, modelMap.Keys) && r == RewriteInOrder(body, modelMap, order)
    ensures Clean(modelMap) && Settled(modelMap) ==> r == Renamed(body, modelMap)
  {
    if |modelMap| == 0 || |body| == 0 {
      ghost var order := SomeOrder(modelMap.Keys);
      UntouchedBody(body, modelMap, order);
      return body;
    }
    r := body;
    var keys := modelMap.Keys;
    ghost var order: seq<string> := [];
    while keys != {}
      invariant keys <= modelMap.Keys
      invariant IsOrder(order, modelMap.Keys - keys)
      invariant r == RewriteInOrder(body, modelMap, order)
    {
      var from :| from in keys;
      var to := modelMap[from];
      assert (order + [from])[..|order|] == order;
      r := ReplaceStyle(r, Compact, from, to);
      r := ReplaceStyle(r, Spaced, from, to);
      r := ReplaceStyle(r, SingleQuoted, from, to);
      keys := keys - {from};
      order := order + [from];
    }
    if Clean(modelMap) && Settled(modelMap) {
      OrderedIsRenamed(body, modelMap, order);
      assert Members(order) == modelMap.Keys;
    }
  }

  ghost function SomeOrder(keys: set<string>): (order: seq<string>)
    ensures IsOrder(order, keys)
  {
    if keys == {} then [] else
      var k :| k in keys;
      SomeOrder(keys - {k}) + [k]
  }

  /** The early return changes nothing: an empty map has no passes, an empty body no fields. */
  lemma {:induction false} UntouchedBody(body: string, modelMap: map<string, string>, order: seq<string>)
    requires |modelMap| == 0 || |body| == 0
    requires forall k | k in order :: k in modelMap
    ensures RewriteInOrder(body, modelMap, order) == body
    ensures Renamed(body, modelMap) == body
  {
    if order != [] {
      UntouchedBody(body, modelMap, order[..|order| - 1]);
    }
    CutRoundTrip(body);
    assert Partial(Rest(body), modelMap, AllPasses(modelMap.Keys)) == Rest(body);
  }

  // ----- Exactly when the order does not matter ------------------------------------------------

  /** No name contains a quote. */
  ghost predicate Quoteless(modelMap: map<string, string>) {
    forall k | k in modelMap :: Plain(k) && Plain(modelMap[k])
  }

  /** The entries that rename anything. */
  ghost function Moving(modelMap: map<string, string>): set<string> {
    set k | k in modelMap && modelMap[k] != k
  }

  /** No entry that renames anything does so from or to the name of the field itself. */
  ghost predicate AvoidsField(modelMap: map<string, string>) {
    forall k | k in Moving(modelMap) :: k != FIELD && modelMap[k] != FIELD
  }

  ghost predicate OrderFree(modelMap: map<string, string>) {
    forall s, o1, o2 | IsOrder(o1, modelMap.Keys) && IsOrder(o2, modelMap.Keys) ::
      RewriteInOrder(s, modelMap, o1) == RewriteInOrder(s, modelMap, o2)
  }

  /** A body that is a single field. */
  ghost function Field(model: string): Cells {
    [Cell('"', FIELD), Cell('"', ":"), Cell('"', model), Cell('"', "")]
  }

  lemma PassOnShort(cells: Cells, style: Style, k: string, v: string)
    requires |cells| <= 3
    ensures Pass(cells, style, k, v) == cells
  {
  }

  lemma PassOnField(x: string, style: Style, k: string, v: string)
    ensures Pass(Field(x), style, k, v) == if style == Compact && x == k then Field(v) else Field(x)
  {
    var c := Field(x);
    if style == Compact && x == k {
      assert Pass(c[4..], style, k, v) == [];
    } else {
      PassOnShort(c[1..], style, k, v);
      assert c == [c[0]] + c[1..];
    }
  }

  lemma EntryOnField(x: string, k: string, v: string)
    requires Plain(x) && Plain(k) && Plain(v)
    ensures ReplaceEntry(Render(Field(x)), k, v) == Render(Field(if x == k then v else x))
  {
    var y := if x == k then v else x;
    PassIsReplace(Field(x), Compact, k, v);
    PassOnField(x, Compact, k, v);
    PassIsReplace(Field(y), Spaced, k, v);
    PassOnField(y, Spaced, k, v);
    PassIsReplace(Field(y), SingleQuoted, k, v);
    PassOnField(y, SingleQuoted, k, v);
  }

  lemma {:induction false} OthersOnField(x: string, modelMap: map<string, string>, order: seq<string>)
    requires Quoteless(modelMap) && Plain(x)
    requires forall k | k in order :: k in modelMap && k != x
    ensures RewriteInOrder(Render(Field(x)), modelMap, order) == Render(Field(x))
  {
    if order != [] {
      var last := order[|order| - 1];
      OthersOnField(x, modelMap, order[..|order| - 1]);
      EntryOnField(x, last, modelMap[last]);
    }
  }

  lemma TwoLast(s: string, modelMap: map<string, string>, order: seq<string>, a: string, b: string)
    requires a in modelMap && b in modelMap && forall k | k in order :: k in modelMap
    ensures RewriteInOrder(s, modelMap, order + [a, b]) ==
            ReplaceEntry(ReplaceEntry(RewriteInOrder(s, modelMap, order), a, modelMap[a]), b, modelMap[b])
  {
    var o := order + [a, b];
    assert o[..|o| - 1] == order + [a];
    assert (order + [a])[..|order|] == order;
  }

  lemma FieldsDiffer(b: string, c: string)
    requires b != c
    ensures Render(Field(b)) != Render(Field(c))
  {
    FieldText(b);
    FieldText(c);
  }

  lemma FieldText(b: string)
    ensures |Render(Field(b))| == |b| + 10 && Render(Field(b))[9..|b| + 9] == b
  {
    PiecesThenRest(Field(b), '"', FIELD, ":", b);
    assert Field(b)[4..] == [];
  }

  lemma TwoLastOnField(x: string, modelMap: map<string, string>, rest: seq<string>, a: string, b: string)
    requires Quoteless(modelMap) && Plain(x)
    requires forall k | k in rest :: k in modelMap && k != x
    requires a in modelMap && b in modelMap
    ensures var y := if x == a then modelMap[a] else x;
            RewriteInOrder(Render(Field(x)), modelMap, rest + [a, b]) ==
            Render(Field(if y == b then modelMap[b] else y))
  {
    OthersOnField(x, modelMap, rest);
    TwoLast(Render(Field(x)), modelMap, rest, a, b);
    EntryOnField(x, a, modelMap[a]);
    EntryOnField(if x == a then modelMap[a] else x, b, modelMap[b]);
  }

  lemma OrdersDiffer(modelMap: map<string, string>, s: string, o1: seq<string>, o2: seq<string>)
    requires IsOrder(o1, modelMap.Keys) && IsOrder(o2, modelMap.Keys)
    requires RewriteInOrder(s, modelMap, o1) != RewriteInOrder(s, modelMap, o2)
    ensures !OrderFree(modelMap)
  {
  }

  lemma ChainSpoilsOrder(modelMap: map<string, string>, a: string)
    requires Quoteless(modelMap)
    requires a in modelMap && modelMap[a] in modelMap && modelMap[modelMap[a]] != modelMap[a]
    ensures !OrderFree(modelMap)
  {
    var b := modelMap[a];
    var rest := SomeOrder(modelMap.Keys - {a, b});
    TwoLastOnField(a, modelMap, rest, a, b);
    TwoLastOnField(a, modelMap, rest, b, a);
    FieldsDiffer(b, modelMap[b]);
    TwoLastIsOrder(rest, modelMap.Keys, a, b);
    TwoLastIsOrder(rest, modelMap.Keys, b, a);
    OrdersDiffer(modelMap, Render(Field(a)), rest + [a, b], rest + [b, a]);
  }

  lemma TwoLastIsOrder(rest: seq<string>, keys: set<string>, a: string, b: string)
    requires a in keys && b in keys && a != b && IsOrder(rest, keys - {a, b})
    ensures IsOrder(rest + [a, b], keys)
  {
  }

  /** Two fields that share their middle: the value of the first is the name of the second. */
  ghost function Nested(x: string, y: string): Cells {
    [Cell('"', FIELD), Cell('"', ":"), Cell('"', x), Cell('"', ":"), Cell('"', y), Cell('"', "")]
  }

  ghost function NestedAfter(x: string, y: string, style: Style, k: string, v: string): Cells {
    if style != Compact then Nested(x, y)
    else if x == k then Nested(v, y)
    else if x == FIELD && y == k then Nested(x, v)
    else Nested(x, y)
  }

  lemma PassOnNested(x: string, y: string, style: Style, k: string, v: string)
    ensures Pass(Nested(x, y), style, k, v) == NestedAfter(x, y, style, k, v)
  {
    var c := Nested(x, y);
    var c1 := c[1..];
    var c2 := c1[1..];
    var c3 := c2[1..];
    assert Pass(c3, style, k, v) == c3 by {
      assert Pass(c3[1..], style, k, v) == c3[1..] by {
        assert Pass(c3[1..][1..], style, k, v) == c3[1..][1..];
      }
    }
    if Site(c, 2, style) && x == k {
      assert Pass(c[4..], style, k, v) == c[4..];
    } else if Site(c2, 2, style) && y == k {
      assert Pass(c2[4..], style, k, v) == [];
      assert Pass(c1, style, k, v) == [c1[0]] + Pass(c2, style, k, v);
    } else {
      assert Pass(c2, style, k, v) == c2;
      assert Pass(c1, style, k, v) == c1;
    }
  }

  lemma StyleOnNested(x: string, y: string, style: Style, k: string, v: string)
    requires Plain(x) && Plain(y) && Plain(k) && Plain(v)
    ensures ReplaceStyle(Render(Nested(x, y)), style, k, v) == Render(NestedAfter(x, y, style, k, v))
  {
    PassIsReplace(Nested(x, y), style, k, v);
    PassOnNested(x, y, style, k, v);
  }

  lemma EntryOnNested(x: string, y: string, k: string, v: string)
    requires Plain(x) && Plain(y) && Plain(k) && Plain(v)
    ensures ReplaceEntry(Render(Nested(x, y)), k, v) == Render(NestedAfter(x, y, Compact, k, v))
  {
    var x', y' := if x == k then v else x, if x == FIELD && x != k && y == k then v else y;
    assert NestedAfter(x, y, Compact, k, v) == Nested(x', y');
    StyleOnNested(x, y, Compact, k, v);
    StyleOnNested(x', y', Spaced, k, v);
    StyleOnNested(x', y', SingleQuoted, k, v);
  }

  lemma {:induction false} OthersOnNested(x: string, y: string, modelMap: map<string, string>, order: seq<string>)
    requires Quoteless(modelMap) && Plain(x) && Plain(y)
    requires forall k | k in order :: k in modelMap && k != x && k != y
    ensures RewriteInOrder(Render(Nested(x, y)), modelMap, order) == Render(Nested(x, y))
  {
    if order != [] {
      var front, last := order[..|order| - 1], order[|order| - 1];
      assert forall k | k in front :: k in order;
      OthersOnNested(x, y, modelMap, front);
      EntryOnNested(x, y, last, modelMap[last]);
    }
  }

  lemma NestedText(x: string, y: string)
    ensures |Render(Nested(x, y))| == |x| + |y| + 13
    ensures Render(Nested(x, y))[|x| + 12..|x| + |y| + 12] == y
  {
    PiecesThenRest(Nested(x, y), '"', FIELD, ":", x);
    var p, tail := Pieces('"', FIELD, ":", x), Nested(x, y)[4..];
    assert tail[1..] == [Cell('"', "")] && tail[1..][1..] == [];
    assert Render(tail[1..]) == ['"'] + "" + Render(tail[1..][1..]);
    assert Render(tail) == ['"'] + y + ['"'];
    assert (p + (":" + Render(tail)))[|p|..] == ":" + Render(tail);
    assert (":" + Render(tail))[2..2 + |y|] == y;
  }

  /** An entry for a model called "model", next to another one that renames. */
  lemma FieldKeySpoilsOrder(modelMap: map<string, string>, a: string)
    requires Quoteless(modelMap) && Settled(modelMap)
    requires FIELD in Moving(modelMap) && a in Moving(modelMap) && a != FIELD
    ensures !OrderFree(modelMap)
  {
    var x, b := modelMap[FIELD], modelMap[a];
    var s, rest := Render(Nested(FIELD, a)), SomeOrder(modelMap.Keys - {FIELD, a});
    OthersOnNested(FIELD, a, modelMap, rest);
    TwoLast(s, modelMap, rest, FIELD, a);
    EntryOnNested(FIELD, a, FIELD, x);
    EntryOnNested(x, a, a, b);
    TwoLast(s, modelMap, rest, a, FIELD);
    EntryOnNested(FIELD, a, a, b);
    EntryOnNested(FIELD, b, FIELD, x);
    NestedFieldsDiffer(x, a, b);
    TwoLastIsOrder(rest, modelMap.Keys, FIELD, a);
    TwoLastIsOrder(rest, modelMap.Keys, a, FIELD);
    OrdersDiffer(modelMap, s, rest + [FIELD, a], rest + [a, FIELD]);
  }

  /** An entry that renames to "model", next to another one that renames. */
  lemma FieldValueSpoilsOrder(modelMap: map<string, string>, k: string, b: string)
    requires Quoteless(modelMap) && FIELD !in Moving(modelMap)
    requires k in Moving(modelMap) && modelMap[k] == FIELD && b in Moving(modelMap) && b != k
    ensures !OrderFree(modelMap)
  {
    var c := modelMap[b];
    var s, rest := Render(Nested(k, b)), SomeOrder(modelMap.Keys - {k, b});
    OthersOnNested(k, b, modelMap, rest);
    TwoLast(s, modelMap, rest, k, b);
    EntryOnNested(k, b, k, FIELD);
    EntryOnNested(FIELD, b, b, c);
    TwoLast(s, modelMap, rest, b, k);
    EntryOnNested(k, b, b, c);
    NestedFieldsDiffer(FIELD, b, c);
    TwoLastIsOrder(rest, modelMap.Keys, k, b);
    TwoLastIsOrder(rest, modelMap.Keys, b, k);
    OrdersDiffer(modelMap, s, rest + [k, b], rest + [b, k]);
  }

  lemma NestedFieldsDiffer(x: string, y: string, z: string)
    requires y != z
    ensures Render(Nested(x, y)) != Render(Nested(x, z))
  {
    NestedText(x, y);
    NestedText(x, z);
  }

  // Entries that map a name to itself do nothing.

  lemma {:induction false} ReplaceSame(s: string, p: string)
    requires p != []
    ensures ReplaceAll(s, p, p) == s
  {
    if |p| <= |s| {
      if p <= s {
        ReplaceSame(s[|p|..], p);
      } else {
        ReplaceSame(s[1..], p);
      }
    }
  }

  ghost function OnlyMoving(modelMap: map<string, string>): map<string, string> {
    map k | k in Moving(modelMap) :: modelMap[k]
  }

  ghost function Movers(modelMap: map<string, string>, order: seq<string>): (r: seq<string>)
    ensures forall k :: k in r <==> k in order && k in Moving(modelMap)
  {
    if order == [] then []
    else
      var last := order[|order| - 1];
      assert order == order[..|order| - 1] + [last];
      Movers(modelMap, order[..|order| - 1]) + if last in Moving(modelMap) then [last] else []
  }

  lemma {:induction false} MoversAreOrder(modelMap: map<string, string>, order: seq<string>)
    requires forall i, j | 0 <= i < j < |order| :: order[i] != order[j]
    ensures forall i, j | 0 <= i < j < |Movers(modelMap, order)| ::
              Movers(modelMap, order)[i] != Movers(modelMap, order)[j]
  {
    if order != [] {
      MoversAreOrder(modelMap, order[..|order| - 1]);
    }
  }

  lemma IdleEntry(s: string, k: string)
    ensures ReplaceEntry(s, k, k) == s
  {
    ReplaceSame(s, Compact.Pattern(k));
    ReplaceSame(s, Spaced.Pattern(k));
    ReplaceSame(s, SingleQuoted.Pattern(k));
  }

  lemma OneMore(s: string, modelMap: map<string, string>, order: seq<string>, k: string)
    requires k in modelMap && forall k' | k' in order :: k' in modelMap
    ensures RewriteInOrder(s, modelMap, order + [k]) ==
            ReplaceEntry(RewriteInOrder(s, modelMap, order), k, modelMap[k])
  {
  }

  lemma {:induction false} IdleEntriesDropOut(s: string, modelMap: map<string, string>, order: seq<string>)
    requires forall k | k in order :: k in modelMap
    ensures RewriteInOrder(s, modelMap, order) ==
            RewriteInOrder(s, OnlyMoving(modelMap), Movers(modelMap, order))
  {
    if order != [] {
      var front, last := order[..|order| - 1], order[|order| - 1];
      IdleEntriesDropOut(s, modelMap, front);
      if last in Moving(modelMap) {
        OneMore(s, OnlyMoving(modelMap), Movers(modelMap, front), last);
      } else {
        IdleEntry(RewriteInOrder(s, modelMap, front), last);
        assert Movers(modelMap, order) == Movers(modelMap, front);
      }
    }
  }

  lemma OnlyOne<T>(keys: set<T>, a: T, b: T)
    requires |keys| <= 1 && a in keys && b in keys
    ensures a == b
  {
    assert |keys - {a}| == 0;
    assert keys - {a} == {};
  }

  lemma OneOrder(keys: set<string>, o1: seq<string>, o2: seq<string>)
    requires |keys| <= 1 && IsOrder(o1, keys) && IsOrder(o2, keys)
    ensures o1 == o2
  {
    ShortOrder(keys, o1);
    ShortOrder(keys, o2);
    EmptyOrder(keys, o1);
    EmptyOrder(keys, o2);
    if keys != {} {
      OnlyOne(keys, o1[0], o2[0]);
    }
  }

  lemma EmptyOrder(keys: set<string>, order: seq<string>)
    requires IsOrder(order, keys)
    ensures order == [] <==> keys == {}
  {
    if order != [] {
      assert order[0] in order;
    }
  }

  lemma ShortOrder(keys: set<string>, order: seq<string>)
    requires |keys| <= 1 && IsOrder(order, keys)
    ensures |order| <= 1
  {
    if |order| > 1 {
      assert order[0] in order && order[1] in order;
      OnlyOne(keys, order[0], order[1]);
    }
  }

  lemma MovingOrdersAgree(s: string, modelMap: map<string, string>, o1: seq<string>, o2: seq<string>)
    requires Quoteless(modelMap)
    requires |Moving(modelMap)| <= 1 || (Settled(modelMap) && AvoidsField(modelMap))
    requires IsOrder(o1, modelMap.Keys) && IsOrder(o2, modelMap.Keys)
    ensures RewriteInOrder(s, modelMap, o1) == RewriteInOrder(s, modelMap, o2)
  {
    var m1, m2 := Movers(modelMap, o1), Movers(modelMap, o2);
    IdleEntriesDropOut(s, modelMap, o1);
    IdleEntriesDropOut(s, modelMap, o2);
    MoversAreOrder(modelMap, o1);
    MoversAreOrder(modelMap, o2);
    if |Moving(modelMap)| <= 1 {
      OneOrder(Moving(modelMap), m1, m2);
    } else {
      SettledOrdersAgree(s, OnlyMoving(modelMap), m1, m2);
    }
  }

  lemma SettledOrdersAgree(s: string, modelMap: map<string, string>, o1: seq<string>, o2: seq<string>)
    requires Clean(modelMap) && Settled(modelMap)
    requires IsOrder(o1, modelMap.Keys) && IsOrder(o2, modelMap.Keys)
    ensures RewriteInOrder(s, modelMap, o1) == RewriteInOrder(s, modelMap, o2)
  {
    OrderedIsRenamed(s, modelMap, o1);
    OrderedIsRenamed(s, modelMap, o2);
    assert Members(o1) == Members(o2);
  }

  /** For model names without quotes, the rewritten body is independent of the order in which the
      map yields its entries, for every body, exactly when at most one entry renames anything, or no
      entry's value is renamed by another entry and the field's own name is not renamed from or to. */
  lemma OrderFreeExactly(modelMap: map<string, string>)
    requires Quoteless(modelMap)
    ensures OrderFree(modelMap) <==>
            |Moving(modelMap)| <= 1 || (Settled(modelMap) && AvoidsField(modelMap))
  {
    if |Moving(modelMap)| <= 1 || (Settled(modelMap) && AvoidsField(modelMap)) {
      forall s, o1, o2 | IsOrder(o1, modelMap.Keys) && IsOrder(o2, modelMap.Keys)
        ensures RewriteInOrder(s, modelMap, o1) == RewriteInOrder(s, modelMap, o2)
      {
        MovingOrdersAgree(s, modelMap, o1, o2);
      }
    } else if !Settled(modelMap) {
      var a :| a in modelMap && modelMap[a] in modelMap && modelMap[modelMap[a]] != modelMap[a];
      ChainSpoilsOrder(modelMap, a);
    } else if FIELD in Moving(modelMap) {
      FieldKeySpoilsOrder(modelMap, AnotherOne(Moving(modelMap), FIELD));
    } else {
      var k :| k in Moving(modelMap) && (k == FIELD || modelMap[k] == FIELD);
      FieldValueSpoilsOrder(modelMap, k, AnotherOne(Moving(modelMap), k));
    }
  }

  ghost function AnotherOne(keys: set<string>, k: string): (other: string)
    requires |keys| > 1 && k in keys
    ensures other in keys && other != k
  {
    assert |keys - {k}| == |keys| - 1;
    var other :| other in keys - {k};
    other
  }

  /** When no name is that of the field, what counts is that no value is renamed by another entry. */
  lemma OrderFreeIffSettled(modelMap: map<string, string>)
    requires Clean(modelMap)
    ensures OrderFree(modelMap) <==> Settled(modelMap)
  {
    OrderFreeExactly(modelMap);
    if |Moving(modelMap)| <= 1 {
      forall k | k in modelMap && modelMap[k] in modelMap ensures modelMap[modelMap[k]] == modelMap[k] {
        if modelMap[modelMap[k]] != modelMap[k] {
          OnlyOne(Moving(modelMap), k, modelMap[k]);
        }
      }
    }
  }

  // ----- itoa ----------------------------------------------------------------------------------

  function Digit(d: int): char
    requires 0 <= d < 10
  {
    ('0' as int + d) as char
  }

  function Digits(n: nat): (s: string)
    ensures s != [] && forall i | 0 <= i < |s| :: '0' <= s[i] <= '9'
  {
    if n < 10 then [Digit(n)] else Digits(n / 10) + [Digit(n % 10)]
  }

  /** Reading a decimal numeral. */
  function Numeral(s: string): int
    requires forall i | 0 <= i < |s| :: '0' <= s[i] <= '9'
  {
    if s == [] then 0 else 10 * Numeral(s[..|s| - 1]) + (s[|s| - 1] as int - '0' as int)
  }

  lemma {:induction false} DigitsRoundTrip(n: nat)
    ensures Numeral(Digits(n)) == n
    ensures Digits(n)[0] == '0' ==> n == 0
  {
    if 10 <= n {
      DigitsRoundTrip(n / 10);
      assert Digits(n)[..|Digits(n)| - 1] == Digits(n / 10);
    }
  }

  /** The text itoa gives a status; a negative number has none. */
  function Itoa(n: int): string {
    if n < 0 then "" else Digits(n)
  }

  function Pow10(e: nat): nat {
    if e == 0 then 1 else 10 * Pow10(e - 1)
  }

  /** The conversion itself: digits are written from the right into a fixed buffer, which is
      long enough for every 64-bit number. */
  method FormatInt(n: int) returns (s: string)
    requires n < 0x8000_0000_0000_0000
    ensures s == Itoa(n)
  {
    if n == 0 {
      return "0";
    }
    var buf := new char[20];
    var pos := 20;
    var left := n;
    assert Pow10(20) == 100_000_000_000_000_000_000 by {
      assert Pow10(5) == 100_000;
      assert Pow10(10) == 10_000_000_000;
      assert Pow10(15) == 1_000_000_000_000_000;
    }
    while 0 < left
      invariant 0 <= pos <= 20
      invariant 0 < n ==> 0 <= left < Pow10(pos)
      invariant n < 0 ==> left == n && pos == 20
      invariant 0 < n ==> Digits(n) == (if left == 0 then [] else Digits(left)) + buf[pos..]
      decreases left
    {
      pos := pos - 1;
      buf[pos] := Digit(left % 10);
      assert buf[pos..] == [Digit(left % 10)] + buf[pos + 1..];
      left := left / 10;
    }
    return buf[pos..];
  }
}
