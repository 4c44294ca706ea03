/**
 * dist/parser.js: turning plural/select constructs into ICU choice strings
 * `{value, kind, label {body} ...}` and flattening JSX subtrees into message
 * text with `<i>...</i>` / `<i/>` markers and `{n}` placeholders.
 *
 * The mutable context objects of the source are classes here (`JsxContext`
 * for `{elementIndex, unknownIndex, localTransComponentName, visitedStrings}`,
 * `PluralContext` for `{index, ...}`); each method that updates them is proved
 * against a function that threads the same state as a value.
 */
module Parser {
  import opened Wrappers
  import opened Text
  import opened Ast
  import opened OrderedMap
  import Templates

  const PluralRules: seq<string> := ["zero", "one", "two", "few", "many", "other"]
  const CommonProps: seq<string> := ["id", "className", "render"]

  /** The three error classes of dist/exceptions.js. */
  datatype PluralError =
    | ValueArgumentErrorMissing
    | MissingFallbackArgument(message: string)
    | InvalidPluralRule(rule: string)

  /** The `choices` object: label -> body, in insertion order. */
  type Choices = seq<(string, string)>

  // ---------------------------------------------------------------------------
  // createPluralString

  /** `/=\d+/.test(rule)`: an `=` immediately followed by a digit, anywhere in the label. */
  predicate HasExactNumber(rule: string) {
    exists i :: 0 <= i < |rule| - 1 && rule[i] == '=' && IsDigit(rule[i + 1])
  }

  predicate IsPluralRule(rule: string) {
    rule in PluralRules || HasExactNumber(rule)
  }

  /** The first label that is not a plural rule, in order. */
  function FirstInvalidRule(rules: seq<string>): (r: Option<string>)
    ensures r.None? <==> forall i :: 0 <= i < |rules| ==> IsPluralRule(rules[i])
    ensures r.Some? ==> exists i :: 0 <= i < |rules| && rules[i] == r.value && !IsPluralRule(r.value)
                                   && forall j :: 0 <= j < i ==> IsPluralRule(rules[j])
  {
    if rules == [] then None
    else if !IsPluralRule(rules[0]) then Some(rules[0])
    else
      var r := FirstInvalidRule(rules[1..]);
      assert forall i :: 0 < i < |rules| ==> rules[i] == rules[1..][i - 1];
      r
  }

  /** `value` is present and not the empty string (JavaScript truthiness of a string). */
  predicate HasValue(choices: Choices) {
    Get(choices, "value").Some? && Get(choices, "value").value != ""
  }

  /** The cases: every choice except `value`, in insertion order. */
  function Cases(choices: Choices): Choices {
    Omit(choices, "value")
  }

  predicate IsPluralKind(choicesType: string) {
    choicesType == "plural" || choicesType == "selectordinal"
  }

  function CaseText(c: (string, string)): string {
    c.0 + " {" + c.1 + "}"
  }

  function CaseTexts(cases: Choices): (ts: seq<string>)
    ensures |ts| == |cases| && forall i :: 0 <= i < |cases| ==> ts[i] == CaseText(cases[i])
  {
    seq(|cases|, i requires 0 <= i < |cases| => CaseText(cases[i]))
  }

  const NoChoicesSuffix := " choices. At least fallback argument 'other' is required."
  const NoOtherMessage := "Missing fallback argument 'other'."

  /**
   * `createPluralString`: the checks in the source's order, then
   * `{value, kind, label {body} label {body} ...}`.
   */
  function CreatePluralString(choices: Choices, choicesType: string): (r: Result<string, PluralError>)
    ensures r == Failure(ValueArgumentErrorMissing) <==> !HasValue(choices)
    ensures r == Failure(MissingFallbackArgument("Missing " + choicesType + NoChoicesSuffix))
            <==> HasValue(choices) && Cases(choices) == []
    ensures r == Failure(MissingFallbackArgument(NoOtherMessage))
            <==> HasValue(choices) && Cases(choices) != [] && "other" !in Keys(Cases(choices))
    ensures (r.Failure? && r.error.InvalidPluralRule?)
            <==> HasValue(choices) && "other" in Keys(Cases(choices)) && IsPluralKind(choicesType)
                 && exists i :: 0 <= i < |Cases(choices)| && !IsPluralRule(Cases(choices)[i].0)
    ensures r.Failure? && r.error.InvalidPluralRule? ==> r.error.rule in Keys(Cases(choices)) && !IsPluralRule(r.error.rule)
    ensures r.Failure? && r.error.InvalidPluralRule? ==> Some(r.error.rule) == FirstInvalidRule(Keys(Cases(choices)))
    ensures r.Success? ==>
              && IsPluralKind(choicesType) ==> forall i :: 0 <= i < |Cases(choices)| ==> IsPluralRule(Cases(choices)[i].0)
    ensures r.Success? ==>
              r.value == "{" + Get(choices, "value").value + ", " + choicesType + ", "
                         + Join(CaseTexts(Cases(choices)), " ") + "}"
  {
    var value := Get(choices, "value");
    var cases := Cases(choices);
    var choicesKeys := Keys(cases);
    assert |NoOtherMessage| < |"Missing " + choicesType + NoChoicesSuffix|;
    if value.None? || value.value == "" then Failure(ValueArgumentErrorMissing)
    else if |choicesKeys| == 0 then Failure(MissingFallbackArgument("Missing " + choicesType + NoChoicesSuffix))
    else if "other" !in choicesKeys then Failure(MissingFallbackArgument(NoOtherMessage))
    else if IsPluralKind(choicesType) && FirstInvalidRule(choicesKeys).Some? then
      Failure(InvalidPluralRule(FirstInvalidRule(choicesKeys).value))
    else Success("{" + value.value + ", " + choicesType + ", " + Join(CaseTexts(cases), " ") + "}")
  }

  /** A successful choice string always lists the fallback case `other {body}`. */
  lemma PluralStringListsOther(choices: Choices, choicesType: string)
    requires CreatePluralString(choices, choicesType).Success?
    ensures Get(choices, "other").Some?
    ensures Contains(CreatePluralString(choices, choicesType).value, "other {" + Get(choices, "other").value + "}")
  {
    var cases := Cases(choices);
    var r := CreatePluralString(choices, choicesType);
    assert HasValue(choices);
    assert "other" in Keys(cases);
    GetOmit(choices, "value", "other");
    var v := Get(cases, "other").value;
    assert ("other", v) in cases;
    var k :| 0 <= k < |cases| && cases[k] == ("other", v);
    var texts := CaseTexts(cases);
    assert texts[k] == CaseText(("other", v));
    assert "other" + " {" == "other {";
    JoinContains(texts, " ", k);
    ContainsWithin("{" + Get(choices, "value").value + ", " + choicesType + ", ", Join(texts, " "), "}", texts[k]);
  }

  /** A label `=N` for a decimal `N` passes the plural-rule test. */
  lemma ExactLabelIsRule(n: nat)
    ensures IsPluralRule("=" + NatToDecimal(n))
  {
    var rule := "=" + NatToDecimal(n);
    assert rule[0] == '=' && rule[1] == NatToDecimal(n)[0];
    assert IsDigit(rule[1]);
  }

  /** The rule test is unanchored: any label with `=` and a digit somewhere passes. */
  lemma UnanchoredRuleAccepted()
    ensures IsPluralRule("few=1x")
  {
    var rule := "few=1x";
    assert rule[3] == '=' && IsDigit(rule[4]);
  }

  // ---------------------------------------------------------------------------
  // Counters and the JSX context

  /**
   * A counter of the JSX context. `parseCallPlurals` passes `{}` as the JSX
   * context, so its counters start `undefined`; `undefined++` gives `NaN`.
   */
  datatype Counter = Undefined | NotANumber | Num(n: nat)

  /** The counter interpolated into a template string. */
  function CounterText(c: Counter): string {
    match c
    case Undefined => "undefined"
    case NotANumber => "NaN"
    case Num(n) => NatToDecimal(n)
  }

  /** `c++`. */
  function Increment(c: Counter): (r: Counter)
    ensures c.Num? <==> r.Num?
    ensures c.Num? ==> r.n == c.n + 1
    ensures !c.Num? ==> r == NotANumber
  {
    match c
    case Num(n) => Num(n + 1)
    case _ => NotANumber
  }

  /** The mutable fields of a JSX context, as a value. */
  datatype JsxState = JsxState(elementIndex: Counter, unknownIndex: Counter, visitedStrings: set<string>)

  /** A flattening result: the text and the context afterwards. */
  datatype Flat = Flat(text: string, state: JsxState)

  function Prepend(s: string, f: Flat): Flat {
    Flat(s + f.text, f.state)
  }

  /** `cleanIdentifier` of dist/parser.js: the identity. */
  function CleanIdentifier(value: string): (r: string)
    ensures r == value
  {
    value
  }

  /**
   * `parseTextFromJSXElement(element, context, isRoot)` as a function of the
   * context's state before the call; `trans` is `context.localTransComponentName`.
   */
  function FlattenJsx(n: Node, trans: Option<string>, st: JsxState, isRoot: bool): Flat
    decreases n
  {
    match n
    case JsxText(_, value) => Flat(value, st)
    case JsxElement(_, name, _, children, hasClosing) =>
      var isTrans := !isRoot && Some(name) == trans;
      var marked := !isRoot && Some(name) != trans;
      var open :=
        if !marked then ""
        else if hasClosing then "<" + CounterText(st.elementIndex) + ">"
        else "<" + CounterText(st.elementIndex) + "/>";
      var inner := FlattenJsxChildren(children, trans,
                     if marked then st.(elementIndex := Increment(st.elementIndex)) else st);
      var close := if hasClosing && marked then "</" + CounterText(st.elementIndex) + ">" else "";
      var visited :=
        if isTrans then inner.state.visitedStrings + {inner.text} else inner.state.visitedStrings;
      Flat(open + inner.text + close, inner.state.(visitedStrings := visited))
    case JsxContainer(_, e) =>
      if e.Identifier? then Flat("{" + CleanIdentifier(e.name) + "}", st)
      else if e.StringLiteral? then Flat(e.value, st)
      else if e.TemplateLiteral? then Flat(Templates.TemplateText(e.template, CleanIdentifier), st)
      else if e.JsxElement? then FlattenJsx(e, trans, st, false)
      else Flat("{" + CounterText(st.unknownIndex) + "}", st.(unknownIndex := Increment(st.unknownIndex)))
    case _ => Flat("", st)
  }

  /** The children in order, each flattened as a non-root node with the state its predecessor left. */
  function FlattenJsxChildren(cs: seq<Node>, trans: Option<string>, st: JsxState): Flat
    decreases cs
  {
    if cs == [] then Flat("", st)
    else
      var first := FlattenJsx(cs[0], trans, st, false);
      Prepend(first.text, FlattenJsxChildren(cs[1..], trans, first.state))
  }

  /** The number of elements that take a marker index. */
  function Marked(n: Node, trans: Option<string>, isRoot: bool): nat
    decreases n
  {
    match n
    case JsxElement(_, name, _, children, _) =>
      (if !isRoot && Some(name) != trans then 1 else 0) + MarkedAll(children, trans)
    case JsxContainer(_, e) => if e.JsxElement? then Marked(e, trans, false) else 0
    case _ => 0
  }

  function MarkedAll(cs: seq<Node>, trans: Option<string>): nat
    decreases cs
  {
    if cs == [] then 0 else Marked(cs[0], trans, false) + MarkedAll(cs[1..], trans)
  }

  /** The number of expression containers that take a `{n}` placeholder. */
  function Unknowns(n: Node): nat
    decreases n
  {
    match n
    case JsxElement(_, _, _, children, _) => UnknownsAll(children)
    case JsxContainer(_, e) =>
      if e.JsxElement? then Unknowns(e)
      else if e.Identifier? || e.StringLiteral? || e.TemplateLiteral? then 0
      else 1
    case _ => 0
  }

  function UnknownsAll(cs: seq<Node>): nat
    decreases cs
  {
    if cs == [] then 0 else Unknowns(cs[0]) + UnknownsAll(cs[1..])
  }

  /**
   * Starting from numeric counters, flattening advances `elementIndex` by the
   * number of marked elements and `unknownIndex` by the number of unknown
   * placeholders: every marker and placeholder gets its own index, in pre-order.
   */
  lemma {:induction false} CountersAdvance(n: Node, trans: Option<string>, st: JsxState, isRoot: bool)
    requires st.elementIndex.Num? && st.unknownIndex.Num?
    ensures FlattenJsx(n, trans, st, isRoot).state.elementIndex == Num(st.elementIndex.n + Marked(n, trans, isRoot))
    ensures FlattenJsx(n, trans, st, isRoot).state.unknownIndex == Num(st.unknownIndex.n + Unknowns(n))
    decreases n
  {
    match n
    case JsxElement(_, name, _, children, _) =>
      var marked := !isRoot && Some(name) != trans;
      CountersAdvanceChildren(children, trans, if marked then st.(elementIndex := Increment(st.elementIndex)) else st);
    case JsxContainer(_, e) =>
      if e.JsxElement? {
        CountersAdvance(e, trans, st, false);
      }
    case _ =>
  }

  lemma {:induction false} CountersAdvanceChildren(cs: seq<Node>, trans: Option<string>, st: JsxState)
    requires st.elementIndex.Num? && st.unknownIndex.Num?
    ensures FlattenJsxChildren(cs, trans, st).state.elementIndex == Num(st.elementIndex.n + MarkedAll(cs, trans))
    ensures FlattenJsxChildren(cs, trans, st).state.unknownIndex == Num(st.unknownIndex.n + UnknownsAll(cs))
    decreases cs
  {
    if cs != [] {
      CountersAdvance(cs[0], trans, st, false);
      CountersAdvanceChildren(cs[1..], trans, FlattenJsx(cs[0], trans, st, false).state);
    }
  }

  /** Flattening only ever adds to `visitedStrings`. */
  lemma {:induction false} VisitedGrows(n: Node, trans: Option<string>, st: JsxState, isRoot: bool)
    ensures st.visitedStrings <= FlattenJsx(n, trans, st, isRoot).state.visitedStrings
    decreases n
  {
    match n
    case JsxElement(_, name, _, children, _) =>
      var marked := !isRoot && Some(name) != trans;
      VisitedGrowsChildren(children, trans, if marked then st.(elementIndex := Increment(st.elementIndex)) else st);
    case JsxContainer(_, e) =>
      if e.JsxElement? {
        VisitedGrows(e, trans, st, false);
      }
    case _ =>
  }

  lemma {:induction false} VisitedGrowsChildren(cs: seq<Node>, trans: Option<string>, st: JsxState)
    ensures st.visitedStrings <= FlattenJsxChildren(cs, trans, st).state.visitedStrings
    decreases cs
  {
    if cs != [] {
      VisitedGrows(cs[0], trans, st, false);
      VisitedGrowsChildren(cs[1..], trans, FlattenJsx(cs[0], trans, st, false).state);
    }
  }

  /**
   * A nested `Trans` component contributes exactly its children's text, takes
   * no marker index, and records that text in `visitedStrings`.
   */
  lemma TransTextRecorded(n: Node, trans: Option<string>, st: JsxState)
    requires n.JsxElement? && trans == Some(n.name)
    ensures FlattenJsx(n, trans, st, false).text == FlattenJsxChildren(n.children, trans, st).text
    ensures FlattenJsx(n, trans, st, false).text in FlattenJsx(n, trans, st, false).state.visitedStrings
    ensures FlattenJsx(n, trans, st, false).state.elementIndex == FlattenJsxChildren(n.children, trans, st).state.elementIndex
  {
  }

  /**
   * Flattening the children splits at any position: the children after `i`
   * start from the state the first `i` children left.
   */
  lemma {:induction false} ChildrenSplit(cs: seq<Node>, i: nat, trans: Option<string>, st: JsxState)
    requires i <= |cs|
    ensures FlattenJsxChildren(cs, trans, st)
         == Prepend(FlattenJsxChildren(cs[..i], trans, st).text,
                    FlattenJsxChildren(cs[i..], trans, FlattenJsxChildren(cs[..i], trans, st).state))
    decreases i
  {
    if i == 0 {
      assert cs[..0] == [] && cs[0..] == cs;
    } else {
      var first := FlattenJsx(cs[0], trans, st, false);
      ChildrenSplit(cs[1..], i - 1, trans, first.state);
      assert cs[..i][0] == cs[0] && cs[..i][1..] == cs[1..][..i - 1];
      assert cs[1..][i - 1..] == cs[i..];
      var pre := FlattenJsxChildren(cs[1..][..i - 1], trans, first.state);
      var rest := FlattenJsxChildren(cs[i..], trans, pre.state);
      assert FlattenJsxChildren(cs[..i], trans, st) == Prepend(first.text, pre);
      ConcatAssociative(first.text, pre.text, rest.text);
    }
  }

  /**
   * The child at position `i` of a marked list is flattened with element
   * index `start + (markers taken by the children before it)`.
   */
  lemma ChildIndex(cs: seq<Node>, i: nat, trans: Option<string>, st: JsxState)
    requires i <= |cs| && st.elementIndex.Num? && st.unknownIndex.Num?
    ensures FlattenJsxChildren(cs[..i], trans, st).state.elementIndex == Num(st.elementIndex.n + MarkedAll(cs[..i], trans))
  {
    CountersAdvanceChildren(cs[..i], trans, st);
  }

  /** One step of the children loop. */
  lemma ChildrenStep(cs: seq<Node>, i: nat, trans: Option<string>, st: JsxState)
    requires i < |cs|
    ensures FlattenJsxChildren(cs[i..], trans, st)
         == Prepend(FlattenJsx(cs[i], trans, st, false).text,
                    FlattenJsxChildren(cs[i + 1..], trans, FlattenJsx(cs[i], trans, st, false).state))
  {
    assert cs[i..][0] == cs[i] && cs[i..][1..] == cs[i + 1..];
  }

  /** The object `{elementIndex, unknownIndex, localTransComponentName, visitedStrings}`. */
  class JsxContext {
    var elementIndex: Counter
    var unknownIndex: Counter
    const localTransComponentName: Option<string>
    var visitedStrings: set<string>

    constructor (elementIndex: Counter, unknownIndex: Counter, localTransComponentName: Option<string>,
                 visitedStrings: set<string>)
      ensures this.elementIndex == elementIndex && this.unknownIndex == unknownIndex
      ensures this.localTransComponentName == localTransComponentName
      ensures this.visitedStrings == visitedStrings
    {
      this.elementIndex := elementIndex;
      this.unknownIndex := unknownIndex;
      this.localTransComponentName := localTransComponentName;
      this.visitedStrings := visitedStrings;
    }

    function State(): JsxState
      reads this
    {
      JsxState(elementIndex, unknownIndex, visitedStrings)
    }
  }

  /** `parseTextFromJSXElement`: the text of `element`, updating the context's counters and visited set. */
  method ParseTextFromJSXElement(element: Node, context: JsxContext, isRoot: bool) returns (str: string)
    modifies context
    ensures Flat(str, context.State())
         == FlattenJsx(element, context.localTransComponentName, old(context.State()), isRoot)
    decreases element
  {
    str := "";
    var trans := context.localTransComponentName;
    if element.JsxText? {
      str := element.value;
    } else if element.JsxElement? {
      var elementIndex := context.elementIndex;
      var shouldAddToVisited := false;
      var open, close := "", "";
      if !isRoot {
        if Some(element.name) == trans {
          shouldAddToVisited := true;
        } else {
          if !element.hasClosing {
            open := "<" + CounterText(elementIndex) + "/>";
          } else {
            open := "<" + CounterText(elementIndex) + ">";
          }
          context.elementIndex := Increment(context.elementIndex);
        }
      }
      var localStr := ParseChildrenText(element.children, context);
      if shouldAddToVisited {
        context.visitedStrings := context.visitedStrings + {localStr};
      }
      if element.hasClosing && !isRoot && Some(element.name) != trans {
        close := "</" + CounterText(elementIndex) + ">";
      }
      str := open + localStr + close;
    } else if element.JsxContainer? {
      var e := element.expression;
      if e.Identifier? {
        str := "{" + CleanIdentifier(e.name) + "}";
      } else if e.StringLiteral? {
        str := e.value;
      } else if e.TemplateLiteral? {
        str := Templates.ParseTextFromTemplateLiteral(e.template, CleanIdentifier);
      } else if e.JsxElement? {
        str := ParseTextFromJSXElement(e, context, false);
      } else {
        str := "{" + CounterText(context.unknownIndex) + "}";
        context.unknownIndex := Increment(context.unknownIndex);
      }
    }
  }

  /** The `children.forEach` of `parseTextFromJSXElement`: the children's texts concatenated. */
  method ParseChildrenText(children: seq<Node>, context: JsxContext) returns (localStr: string)
    modifies context
    ensures Flat(localStr, context.State())
         == FlattenJsxChildren(children, context.localTransComponentName, old(context.State()))
    decreases children
  {
    var trans := context.localTransComponentName;
    localStr := "";
    var i := 0;
    assert children[0..] == children;
    while i < |children|
      invariant 0 <= i <= |children|
      invariant FlattenJsxChildren(children, trans, old(context.State()))
             == Prepend(localStr, FlattenJsxChildren(children[i..], trans, context.State()))
    {
      ChildrenStep(children, i, trans, context.State());
      var s := ParseTextFromJSXElement(children[i], context, false);
      localStr, i := localStr + s, i + 1;
    }
    assert children[|children|..] == [];
    assert localStr + "" == localStr;
  }

  // ---------------------------------------------------------------------------
  // Plural elements and the two plural forms

  /** The text of one choice body, the JSX state and the positional index afterwards. */
  datatype ElementResult = ElementResult(text: string, jsx: JsxState, index: nat)

  /** `parsePluralElement(element, localJSXContext, context)` as a function of the two states. */
  function PluralElement(e: Node, trans: Option<string>, jsx: JsxState, index: nat): ElementResult {
    match e
    case Identifier(_, name) => ElementResult(name, jsx, index)
    case StringLiteral(_, value) => ElementResult(value, jsx, index)
    case NumericLiteral(_, num) => ElementResult(NatToDecimal(num), jsx, index)
    case JsxElement(_, _, _, _, _) =>
      var f := FlattenJsx(e, trans, jsx, false);
      ElementResult(f.text, f.state, index)
    case TemplateLiteral(_, t) => ElementResult(Templates.TemplateText(t, CleanIdentifier), jsx, index)
    case _ => ElementResult(NatToDecimal(index), jsx, index + 1)
  }

  /**
   * Only an element that is none of the recognised kinds takes a positional
   * index: its body is that index's bare decimal, and the index moves on by one.
   */
  lemma PluralElementIndex(e: Node, trans: Option<string>, jsx: JsxState, index: nat)
    ensures var r := PluralElement(e, trans, jsx, index);
            && (r.index == index + 1 <==>
                  !(e.Identifier? || e.StringLiteral? || e.NumericLiteral? || e.JsxElement? || e.TemplateLiteral?))
            && (r.index == index || r.index == index + 1)
            && (r.index == index + 1 ==> r.text == NatToDecimal(index) && r.jsx == jsx)
  {
  }

  /** The plural `context`: `{index, localTransComponentName, visitedStrings}`. */
  class PluralContext {
    var index: nat
    const localTransComponentName: Option<string>
    var visitedStrings: set<string>

    constructor (index: nat, localTransComponentName: Option<string>, visitedStrings: set<string>)
      ensures this.index == index && this.localTransComponentName == localTransComponentName
      ensures this.visitedStrings == visitedStrings
    {
      this.index := index;
      this.localTransComponentName := localTransComponentName;
      this.visitedStrings := visitedStrings;
    }
  }

  /** `parsePluralElement`: one choice body. */
  method ParsePluralElement(element: Node, localJSXContext: JsxContext, context: PluralContext) returns (s: string)
    modifies localJSXContext, context
    ensures ElementResult(s, localJSXContext.State(), context.index)
         == PluralElement(element, localJSXContext.localTransComponentName,
                          old(localJSXContext.State()), old(context.index))
    ensures context.visitedStrings == old(context.visitedStrings)
  {
    if element.Identifier? {
      s := element.name;
    } else if element.StringLiteral? {
      s := element.value;
    } else if element.NumericLiteral? {
      s := NatToDecimal(element.num);
    } else if element.JsxElement? {
      s := ParseTextFromJSXElement(element, localJSXContext, false);
    } else if element.TemplateLiteral? {
      s := Templates.ParseTextFromTemplateLiteral(element.template, CleanIdentifier);
    } else {
      s := NatToDecimal(context.index);
      context.index := context.index + 1;
    }
  }

  /** The label of a key-value property: `=N` for a numeric key, the key's name otherwise. */
  function KeyLabel(key: PropKey): string {
    match key
    case NumKey(n) => "=" + NatToDecimal(n)
    case NameKey(name) => name
  }

  /**
   * The JSX context `parseCallPlurals` hands to each element: `{}`, whose
   * counters, Trans name and visited set are all `undefined`.
   */
  const EmptyJsxState := JsxState(Undefined, Undefined, {})

  /** The choices and the positional index after one object property of a call plural. */
  function CallChoice(attr: Property, choices: Choices, index: nat): (Choices, nat) {
    match attr
    case Shorthand(name) => (Put(choices, name, name), index)
    case KeyValue(key, value) =>
      var r := PluralElement(value, None, EmptyJsxState, index);
      (Put(choices, KeyLabel(key), r.text), r.index)
    case OtherProperty(_) => (choices, index)
  }

  /** The `for (const attr of args)` loop of `parseCallPlurals`, from the given choices and index. */
  function CallChoices(props: seq<Property>, choices: Choices, index: nat): (Choices, nat)
    decreases |props|
  {
    if props == [] then (choices, index)
    else
      var next := CallChoice(props[0], choices, index);
      CallChoices(props[1..], next.0, next.1)
  }

  /** The object literal's properties, or none when the first argument is no object literal. */
  function CallProperties(call: Node): seq<Property>
    requires call.Call? && |call.arguments| > 0
  {
    if call.arguments[0].ObjectLiteral? then call.arguments[0].properties else []
  }

  /** `parseCallPlurals`: the choice string of `plural(value, {...})` style calls, and the index after. */
  function CallPlurals(call: Node, index: nat): (Result<string, PluralError>, nat)
    requires call.Call? && call.callee.Member? && |call.arguments| > 0
  {
    var gathered := CallChoices(CallProperties(call), [], index);
    (CreatePluralString(gathered.0, ToLowerAscii(call.callee.property)), gathered.1)
  }

  lemma CallChoicesStep(props: seq<Property>, i: nat, choices: Choices, index: nat)
    requires i < |props|
    ensures CallChoices(props[i..], choices, index)
         == CallChoices(props[i + 1..], CallChoice(props[i], choices, index).0, CallChoice(props[i], choices, index).1)
  {
    assert props[i..][0] == props[i] && props[i..][1..] == props[i + 1..];
  }

  /**
   * `parseCallPlurals(element, context)`. The source dereferences
   * `element.callee.property` and `element.arguments[0]`, so the call must have
   * a member callee and an argument.
   */
  method ParseCallPlurals(element: Node, context: PluralContext) returns (r: Result<string, PluralError>)
    requires element.Call? && element.callee.Member? && |element.arguments| > 0
    modifies context
    ensures (r, context.index) == CallPlurals(element, old(context.index))
    ensures context.visitedStrings == old(context.visitedStrings)
  {
    var choicesType := ToLowerAscii(element.callee.property);
    var args := CallProperties(element);
    var choices: Choices := [];
    var i := 0;
    assert args[0..] == args;
    while i < |args|
      invariant 0 <= i <= |args|
      invariant CallChoices(args, [], old(context.index)) == CallChoices(args[i..], choices, context.index)
      invariant context.visitedStrings == old(context.visitedStrings)
    {
      CallChoicesStep(args, i, choices, context.index);
      choices := ParseCallChoice(args[i], choices, context);
      i := i + 1;
    }
    assert args[|args|..] == [];
    r := CreatePluralString(choices, choicesType);
  }

  /** One pass of the `for (const attr of args)` loop of `parseCallPlurals`. */
  method ParseCallChoice(attr: Property, choices: Choices, context: PluralContext) returns (next: Choices)
    modifies context
    ensures (next, context.index) == CallChoice(attr, choices, old(context.index))
    ensures context.visitedStrings == old(context.visitedStrings)
  {
    next := choices;
    if attr.Shorthand? {
      next := Put(choices, attr.name, attr.name);
    } else if attr.KeyValue? {
      var name := KeyLabel(attr.key);
      var jsx := new JsxContext(Undefined, Undefined, None, {});
      var body := ParsePluralElement(attr.value, jsx, context);
      next := Put(choices, name, body);
    }
  }

  /** The expression an attribute stands for: the contents of `{...}`, or the value itself. */
  function AttributeExpression(value: Node): Node {
    if value.JsxContainer? then value.expression else value
  }

  /** `name.replace("_", "=")`: `_0` names the exact case `=0`. */
  function AttributeLabel(name: string): string {
    ReplaceFirst(name, "_", "=")
  }

  /** The result of the attribute loop of `parseJSXPlurals`. */
  datatype Gathered = Gathered(choices: Choices, jsx: JsxState, index: nat)

  function JsxChoice(attr: JsxAttribute, trans: Option<string>, g: Gathered): Gathered {
    if attr.name in CommonProps then g
    else
      var r := PluralElement(AttributeExpression(attr.value), trans, g.jsx, g.index);
      Gathered(Put(g.choices, AttributeLabel(attr.name), r.text), r.jsx, r.index)
  }

  function JsxChoices(attrs: seq<JsxAttribute>, trans: Option<string>, g: Gathered): Gathered
    decreases |attrs|
  {
    if attrs == [] then g else JsxChoices(attrs[1..], trans, JsxChoice(attrs[0], trans, g))
  }

  lemma JsxChoicesStep(attrs: seq<JsxAttribute>, i: nat, trans: Option<string>, g: Gathered)
    requires i < |attrs|
    ensures JsxChoices(attrs[i..], trans, g) == JsxChoices(attrs[i + 1..], trans, JsxChoice(attrs[i], trans, g))
  {
    assert attrs[i..][0] == attrs[i] && attrs[i..][1..] == attrs[i + 1..];
  }

  /** The outcome of `parseJSXPlurals`: the choice string, the index and the visited set afterwards. */
  datatype JsxPluralOutcome = JsxPluralOutcome(result: Result<string, PluralError>, index: nat, visitedStrings: set<string>)

  /**
   * `parseJSXPlurals` as a function: one JSX context, with counters from 0 and
   * the plural context's Trans name and visited set, serves every attribute.
   */
  function JsxPlurals(element: Node, trans: Option<string>, index: nat, visited: set<string>): JsxPluralOutcome
    requires element.JsxElement?
  {
    var g := JsxChoices(element.attributes, trans, Gathered([], JsxState(Num(0), Num(0), visited), index));
    JsxPluralOutcome(CreatePluralString(g.choices, ToLowerAscii(element.name)), g.index, g.jsx.visitedStrings)
  }

  /**
   * `parseJSXPlurals(element, context)`. The JSX context shares the plural
   * context's visited-strings object, so what it records is visible in
   * `context` afterwards.
   */
  method ParseJSXPlurals(element: Node, context: PluralContext) returns (r: Result<string, PluralError>)
    requires element.JsxElement?
    modifies context
    ensures JsxPluralOutcome(r, context.index, context.visitedStrings)
         == JsxPlurals(element, context.localTransComponentName, old(context.index), old(context.visitedStrings))
  {
    var choicesType := ToLowerAscii(element.name);
    var choices: Choices := [];
    var jsxContext := new JsxContext(Num(0), Num(0), context.localTransComponentName, context.visitedStrings);
    var trans := context.localTransComponentName;
    var attrs := element.attributes;
    ghost var g0 := Gathered([], jsxContext.State(), context.index);
    var i := 0;
    assert attrs[0..] == attrs;
    while i < |attrs|
      invariant 0 <= i <= |attrs|
      invariant jsxContext.localTransComponentName == trans
      invariant JsxChoices(attrs, trans, g0)
             == JsxChoices(attrs[i..], trans, Gathered(choices, jsxContext.State(), context.index))
    {
      JsxChoicesStep(attrs, i, trans, Gathered(choices, jsxContext.State(), context.index));
      choices := ParseJsxChoice(attrs[i], choices, jsxContext, context);
      i := i + 1;
    }
    assert attrs[|attrs|..] == [];
    context.visitedStrings := jsxContext.visitedStrings;
    r := CreatePluralString(choices, choicesType);
  }

  /** One pass of the attribute loop of `parseJSXPlurals`. */
  method ParseJsxChoice(attr: JsxAttribute, choices: Choices, jsxContext: JsxContext, context: PluralContext)
    returns (next: Choices)
    modifies jsxContext, context
    ensures Gathered(next, jsxContext.State(), context.index)
         == JsxChoice(attr, jsxContext.localTransComponentName,
                      Gathered(choices, old(jsxContext.State()), old(context.index)))
  {
    next := choices;
    if attr.name !in CommonProps {
      var exp := AttributeExpression(attr.value);
      var body := ParsePluralElement(exp, jsxContext, context);
      next := Put(choices, AttributeLabel(attr.name), body);
    }
  }

  /** The label a property of a call plural assigns, if any. */
  function PropertyLabel(attr: Property): Option<string> {
    match attr
    case Shorthand(name) => Some(name)
    case KeyValue(key, _) => Some(KeyLabel(key))
    case OtherProperty(_) => None
  }

  /** The call-plural labels are exactly the labels the properties assign, added to those already present. */
  lemma {:induction false} CallLabels(props: seq<Property>, choices: Choices, index: nat, l: string)
    ensures l in Keys(CallChoices(props, choices, index).0)
            <==> l in Keys(choices) || exists i :: 0 <= i < |props| && PropertyLabel(props[i]) == Some(l)
    decreases |props|
  {
    if props != [] {
      var next := CallChoice(props[0], choices, index);
      CallLabels(props[1..], next.0, next.1, l);
      assert l in Keys(next.0) <==> l in Keys(choices) || PropertyLabel(props[0]) == Some(l);
      if exists i :: 0 <= i < |props[1..]| && PropertyLabel(props[1..][i]) == Some(l) {
        var i :| 0 <= i < |props[1..]| && PropertyLabel(props[1..][i]) == Some(l);
        assert PropertyLabel(props[i + 1]) == Some(l);
      }
      if exists i :: 0 <= i < |props| && PropertyLabel(props[i]) == Some(l) {
        var i :| 0 <= i < |props| && PropertyLabel(props[i]) == Some(l);
        if i > 0 {
          assert PropertyLabel(props[1..][i - 1]) == Some(l);
        }
      }
    }
  }

  /** The attribute `attr` assigns the label `l`: it is not a common prop and its name relabels to `l`. */
  predicate LabelledBy(attr: JsxAttribute, l: string) {
    attr.name !in CommonProps && AttributeLabel(attr.name) == l
  }

  /** One attribute adds its relabelled name, unless it is one of the common props. */
  lemma JsxChoiceLabel(attr: JsxAttribute, trans: Option<string>, g: Gathered, l: string)
    ensures l in Keys(JsxChoice(attr, trans, g).choices) <==> l in Keys(g.choices) || LabelledBy(attr, l)
  {
  }

  lemma LabelledByCons(attrs: seq<JsxAttribute>, l: string)
    requires attrs != []
    ensures (exists i :: 0 <= i < |attrs| && LabelledBy(attrs[i], l))
            <==> LabelledBy(attrs[0], l) || exists i :: 0 <= i < |attrs[1..]| && LabelledBy(attrs[1..][i], l)
  {
    if exists i :: 0 <= i < |attrs[1..]| && LabelledBy(attrs[1..][i], l) {
      var i :| 0 <= i < |attrs[1..]| && LabelledBy(attrs[1..][i], l);
      assert attrs[i + 1] == attrs[1..][i];
    }
    if exists i :: 0 <= i < |attrs| && LabelledBy(attrs[i], l) {
      var i :| 0 <= i < |attrs| && LabelledBy(attrs[i], l);
      if i > 0 {
        assert attrs[1..][i - 1] == attrs[i];
      }
    }
  }

  /**
   * The JSX-plural labels are exactly the relabelled names of the attributes
   * other than `id`, `className` and `render`, added to those already present.
   */
  lemma {:induction false} JsxLabels(attrs: seq<JsxAttribute>, trans: Option<string>, g: Gathered, l: string)
    ensures l in Keys(JsxChoices(attrs, trans, g).choices)
            <==> l in Keys(g.choices) || exists i :: 0 <= i < |attrs| && LabelledBy(attrs[i], l)
    decreases |attrs|
  {
    if attrs != [] {
      var next := JsxChoice(attrs[0], trans, g);
      JsxLabels(attrs[1..], trans, next, l);
      JsxChoiceLabel(attrs[0], trans, g, l);
      LabelledByCons(attrs, l);
    }
  }

  /** The attribute `_N` becomes the exact-number label `=N`, which the plural-rule test accepts. */
  lemma UnderscoreAttributeIsExactLabel(n: nat)
    ensures AttributeLabel("_" + NatToDecimal(n)) == "=" + NatToDecimal(n)
    ensures IsPluralRule(AttributeLabel("_" + NatToDecimal(n)))
  {
    var name := "_" + NatToDecimal(n);
    assert name[0..1] == "_" && name[1..] == NatToDecimal(n);
    ReplaceAtStart(name, "_", "=");
    ExactLabelIsRule(n);
  }

  /**
   * In a call plural the JSX context starts without counters, so a JSX body
   * is marked `<undefined>...</undefined>` rather than `<0>...</0>`.
   */
  lemma CallPluralMarkersUndefined(start: int, name: string, text: string)
    ensures PluralElement(JsxElement(start, name, [], [JsxText(start, text)], true), None, EmptyJsxState, 0).text
         == "<undefined>" + text + "</undefined>"
  {
    var child := JsxText(start, text);
    var inner := FlattenJsxChildren([child], None, EmptyJsxState.(elementIndex := NotANumber));
    var st := EmptyJsxState.(elementIndex := NotANumber);
    assert [child][0] == child && [child][1..] == [];
    assert FlattenJsx(child, None, st, false) == Flat(text, st);
    assert FlattenJsxChildren([], None, st) == Flat("", st);
    assert inner == Prepend(text, FlattenJsxChildren([child][1..], None, st));
    assert inner.text == text;
    var e := JsxElement(start, name, [], [child], true);
    assert Increment(Undefined) == NotANumber && CounterText(Undefined) == "undefined";
    assert "<" + "undefined" + ">" == "<undefined>";
    assert "</" + "undefined" + ">" == "</undefined>";
    assert FlattenJsx(e, None, EmptyJsxState, false).text == "<undefined>" + inner.text + "</undefined>";
  }
}
