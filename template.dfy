/**
 * Flattening a template literal into message text (`parseTextFromTemplateLiteral`,
 * which dist/parser.js and dist/extract.js each define). The expressions and the
 * quasis are put in one list, expressions first, and sorted by span start with a
 * stable sort; then quasis contribute their raw text, identifiers become `{name}`
 * after the caller's identifier clean-up, and every other expression becomes
 * `{0}`, `{1}`, ... numbered from zero within the literal.
 */
module Templates {
  import opened Ast
  import opened Text

  datatype Piece = Expression(e: Node) | Quasi(q: TemplateElement)

  function Start(p: Piece): int {
    match p
    case Expression(e) => e.start
    case Quasi(q) => q.start
  }

  /** `[...expr.expressions, ...expr.quasis]`. */
  function Pieces(t: Template): (ps: seq<Piece>)
    ensures |ps| == |t.expressions| + |t.quasis|
    ensures forall i :: 0 <= i < |t.expressions| ==> ps[i] == Expression(t.expressions[i])
    ensures forall i :: 0 <= i < |t.quasis| ==> ps[|t.expressions| + i] == Quasi(t.quasis[i])
  {
    seq(|t.expressions|, i requires 0 <= i < |t.expressions| => Expression(t.expressions[i]))
    + seq(|t.quasis|, i requires 0 <= i < |t.quasis| => Quasi(t.quasis[i]))
  }

  predicate SortedByStart(ps: seq<Piece>) {
    forall i, j :: 0 <= i < j < |ps| ==> Start(ps[i]) <= Start(ps[j])
  }

  /** Inserts `p` after every element whose start is not greater than its own. */
  function Insert(p: Piece, s: seq<Piece>): (r: seq<Piece>)
    ensures multiset(r) == multiset(s) + multiset{p}
  {
    if s == [] || Start(p) < Start(s[0]) then [p] + s
    else
      var rest := Insert(p, s[1..]);
      assert s == [s[0]] + s[1..];
      [s[0]] + rest
  }

  lemma {:induction false} InsertSorted(p: Piece, s: seq<Piece>)
    requires SortedByStart(s)
    ensures SortedByStart(Insert(p, s))
  {
    if s == [] || Start(p) < Start(s[0]) {
    } else {
      InsertSorted(p, s[1..]);
      var rest := Insert(p, s[1..]);
      assert multiset(rest) == multiset(s[1..]) + multiset{p};
      forall i | 0 <= i < |rest| ensures Start(s[0]) <= Start(rest[i]) {
        assert rest[i] in multiset(rest);
        if rest[i] != p {
          assert rest[i] in multiset(s[1..]);
          assert rest[i] in s[1..];
        }
      }
    }
  }

  /** The stable sort by `span.start` (insertion sort, taking the elements in order). */
  function SortByStart(ps: seq<Piece>): seq<Piece> {
    if ps == [] then [] else Insert(ps[|ps| - 1], SortByStart(ps[..|ps| - 1]))
  }

  /** The sort puts the pieces in ascending start order and loses or adds none. */
  lemma {:induction false} SortByStartCorrect(ps: seq<Piece>)
    ensures SortedByStart(SortByStart(ps))
    ensures multiset(SortByStart(ps)) == multiset(ps)
  {
    if ps != [] {
      SortByStartCorrect(ps[..|ps| - 1]);
      InsertSorted(ps[|ps| - 1], SortByStart(ps[..|ps| - 1]));
      assert ps == ps[..|ps| - 1] + [ps[|ps| - 1]];
    }
  }

  /** An expression that is neither an identifier nor a quasi: it takes a positional index. */
  predicate IsPositional(p: Piece) {
    p.Expression? && !p.e.Identifier?
  }

  /** The text one piece contributes when the positional counter stands at `k`. */
  function PieceText(p: Piece, cleanIdentifier: string -> string, k: nat): string {
    match p
    case Quasi(q) => q.raw
    case Expression(e) =>
      if e.Identifier? then "{" + cleanIdentifier(e.name) + "}" else "{" + NatToDecimal(k) + "}"
  }

  /** The positional counter after one piece. */
  function NextIndex(p: Piece, k: nat): nat {
    if IsPositional(p) then k + 1 else k
  }

  /** The text of the pieces in order, numbering positional pieces from `k`. */
  function Render(ps: seq<Piece>, cleanIdentifier: string -> string, k: nat): string {
    if ps == [] then ""
    else PieceText(ps[0], cleanIdentifier, k) + Render(ps[1..], cleanIdentifier, NextIndex(ps[0], k))
  }

  function Positionals(ps: seq<Piece>): nat {
    if ps == [] then 0 else (if IsPositional(ps[0]) then 1 else 0) + Positionals(ps[1..])
  }

  /**
   * Rendering splits over concatenation: the second part's positional
   * indices continue where the first part's stopped.
   */
  lemma {:induction false} RenderAppend(a: seq<Piece>, b: seq<Piece>, cleanIdentifier: string -> string, k: nat)
    ensures Render(a + b, cleanIdentifier, k) == Render(a, cleanIdentifier, k) + Render(b, cleanIdentifier, k + Positionals(a))
  {
    if a != [] {
      var k' := NextIndex(a[0], k);
      assert (a + b)[0] == a[0];
      assert (a + b)[1..] == a[1..] + b;
      RenderAppend(a[1..], b, cleanIdentifier, k');
      assert Positionals(a) == (if IsPositional(a[0]) then 1 else 0) + Positionals(a[1..]);
      var x := PieceText(a[0], cleanIdentifier, k);
      assert Render(a + b, cleanIdentifier, k) == x + Render(a[1..] + b, cleanIdentifier, k');
      assert Render(a, cleanIdentifier, k) == x + Render(a[1..], cleanIdentifier, k');
      assert k' + Positionals(a[1..]) == k + Positionals(a);
    } else {
      assert a + b == b;
    }
  }

  /** The message text of a template literal, as specified above. */
  function TemplateText(t: Template, cleanIdentifier: string -> string): string {
    Render(SortByStart(Pieces(t)), cleanIdentifier, 0)
  }

  /** `parseTextFromTemplateLiteral`: the `forEach` over the sorted pieces. */
  method ParseTextFromTemplateLiteral(t: Template, cleanIdentifier: string -> string) returns (str: string)
    ensures str == TemplateText(t, cleanIdentifier)
  {
    str := RenderPieces(SortByStart(Pieces(t)), cleanIdentifier);
  }

  /** One step of rendering: the piece at `i`, then the rest with the counter moved on. */
  lemma RenderStep(ps: seq<Piece>, i: nat, cleanIdentifier: string -> string, k: nat)
    requires i < |ps|
    ensures Render(ps[i..], cleanIdentifier, k)
         == PieceText(ps[i], cleanIdentifier, k) + Render(ps[i + 1..], cleanIdentifier, NextIndex(ps[i], k))
  {
    assert ps[i..][0] == ps[i] && ps[i..][1..] == ps[i + 1..];
  }

  /** The loop of `parseTextFromTemplateLiteral` over the already sorted pieces. */
  method RenderPieces(elements: seq<Piece>, cleanIdentifier: string -> string) returns (str: string)
    ensures str == Render(elements, cleanIdentifier, 0)
  {
    str := "";
    var unknownParamIndex: nat := 0;
    var i := 0;
    assert elements[0..] == elements;
    while i < |elements|
      invariant 0 <= i <= |elements|
      invariant Render(elements, cleanIdentifier, 0) == str + Render(elements[i..], cleanIdentifier, unknownParamIndex)
    {
      var element := elements[i];
      RenderStep(elements, i, cleanIdentifier, unknownParamIndex);
      var piece, nextIndex := "", unknownParamIndex;
      if element.Expression? && element.e.Identifier? {
        piece := "{" + cleanIdentifier(element.e.name) + "}";
      } else if element.Quasi? {
        piece := element.q.raw;
      } else {
        piece := "{" + NatToDecimal(unknownParamIndex) + "}";
        nextIndex := unknownParamIndex + 1;
      }
      assert piece == PieceText(element, cleanIdentifier, unknownParamIndex);
      assert nextIndex == NextIndex(element, unknownParamIndex);
      ConcatAssociative(str, piece, Render(elements[i + 1..], cleanIdentifier, nextIndex));
      str, unknownParamIndex, i := str + piece, nextIndex, i + 1;
    }
  }

  /** Text that is already flat, given back as a single quasi, flattens to itself. */
  lemma FlatTextIsFixed(s: string, start: int, cleanIdentifier: string -> string)
    ensures TemplateText(Template([TemplateElement(start, s)], []), cleanIdentifier) == s
  {
    var t := Template([TemplateElement(start, s)], []);
    var q := Quasi(TemplateElement(start, s));
    assert Pieces(t) == [q];
    assert [q][..0] == [];
    assert SortByStart([q]) == [q];
    assert Render([q], cleanIdentifier, 0) == s + Render([], cleanIdentifier, 0);
  }
}
