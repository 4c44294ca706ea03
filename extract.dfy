/**
 * dist/extract.js: the `MyVisitor` tree walk that finds translatable text.
 * A tagged template whose tag is `i18n.<something>` and a JSX element named
 * `T` are flattened (with this file's own copies of the flatteners) and the
 * text is appended to `translatableStrings`, after the nested constructs
 * found below them.
 *
 * The swc `Visitor` base class is replaced by the walk over `Ast.Node` that
 * `Walk` specifies: every child is visited, except inside TypeScript types.
 */
module Extract {
  import opened Wrappers
  import opened Text
  import opened Ast
  import Templates

  /** `cleanIdentifier` of `MyVisitor`: names starting with `min` or `max` get a `_` prefix. */
  function CleanIdentifier(value: string): (r: string)
    ensures !StartsWith(r, "min") && !StartsWith(r, "max")
    ensures EndsWith(r, value) && |value| <= |r| <= |value| + 1
    ensures r == value <==> !StartsWith(value, "min") && !StartsWith(value, "max")
    ensures r != value ==> r == "_" + value
  {
    if StartsWith(value, "min") || StartsWith(value, "max") then
      var r := "_" + value;
      assert r[0] == '_' && r[1..] == value;
      r
    else
      assert value[0..] == value;
      value
  }

  /** The prefix makes `minX` and `_minX` render the same placeholder. */
  lemma CleanIdentifierNotInjective()
    ensures CleanIdentifier("minWidth") == CleanIdentifier("_minWidth")
  {
    var a, b := "minWidth", "_minWidth";
    assert StartsWith(a, "min") by { assert a[..3] == "min"; }
    assert !StartsWith(b, "min") && !StartsWith(b, "max") by { assert b[..3][0] == '_'; }
    assert "_" + a == b;
  }

  /**
   * `cleanText`: drop the first `\r`, then the first `\n`, then turn every run
   * of `\s` into one space.
   */
  function CleanText(value: string): (r: string)
    ensures Collapsed(r)
    ensures |r| <= |value|
  {
    var joined := ReplaceFirst(ReplaceFirst(value, "\r", ""), "\n", "");
    CollapseIsCollapsed(joined);
    CollapseSpaces(joined)
  }

  /** Cleaning changes only white space: the other characters stay, in order. */
  lemma CleanTextKeepsText(value: string)
    ensures NonSpaces(CleanText(value)) == NonSpaces(value)
  {
    var noReturn := ReplaceFirst(value, "\r", "");
    ReplaceSpacesKeepsText(value, "\r", "");
    ReplaceSpacesKeepsText(noReturn, "\n", "");
    CollapseKeepsText(ReplaceFirst(noReturn, "\n", ""));
  }

  /** Text without `\r` and `\n` is only collapsed. */
  lemma CleanTextWithoutBreaks(value: string)
    requires forall k :: 0 <= k < |value| ==> value[k] != '\r' && value[k] != '\n'
    ensures CleanText(value) == CollapseSpaces(value)
  {
    AbsentChar(value, '\r');
    AbsentChar(value, '\n');
  }

  /**
   * The first `\n` is deleted, not turned into a space: the text on either
   * side of it is joined before the white space is collapsed.
   */
  lemma CleanTextDropsFirstNewline(a: string, b: string)
    requires forall k :: 0 <= k < |a| ==> a[k] != '\r' && a[k] != '\n'
    requires forall k :: 0 <= k < |b| ==> b[k] != '\r'
    ensures CleanText(a + "\n" + b) == CollapseSpaces(a + b)
  {
    var s := a + "\n" + b;
    forall k | 0 <= k < |s|
      ensures s[k] != '\r'
    {
      if k > |a| {
        assert s[k] == b[k - |a| - 1];
      }
    }
    AbsentChar(s, '\r');
    assert OccursAt(s, "\n", |a|) by {
      assert s[|a|..|a| + 1] == "\n";
    }
    forall j | 0 <= j < |a|
      ensures !OccursAt(s, "\n", j)
    {
      assert s[j..j + 1][0] == a[j];
    }
    ReplaceFirstAt(s, "\n", "", |a|);
    assert s[..|a|] == a && s[|a| + 1..] == b;
    assert a + "" + b == a + b;
  }

  /** The first `\r` is deleted, not turned into a space. */
  lemma CleanTextDropsFirstReturn(a: string, b: string)
    requires forall k :: 0 <= k < |a| ==> a[k] != '\r' && a[k] != '\n'
    requires forall k :: 0 <= k < |b| ==> b[k] != '\n'
    ensures CleanText(a + "\r" + b) == CollapseSpaces(a + b)
  {
    DropFirstChar(a, '\r', b);
    var ab := a + b;
    forall k | 0 <= k < |ab|
      ensures ab[k] != '\n'
    {
      if k >= |a| {
        assert ab[k] == b[k - |a|];
      }
    }
    AbsentChar(ab, '\n');
    assert ReplaceFirst(ab, "\n", "") == ab;
  }

  /** A first `\r\n` line break is deleted outright: the text either side of it is joined. */
  lemma CleanTextDropsCrlf(a: string, b: string)
    requires forall k :: 0 <= k < |a| ==> a[k] != '\r' && a[k] != '\n'
    ensures CleanText(a + "\r\n" + b) == CollapseSpaces(a + b)
  {
    var nb := "\n" + b;
    assert a + "\r\n" + b == a + ['\r'] + nb;
    DropFirstChar(a, '\r', nb);
    assert a + nb == a + ['\n'] + b;
    DropFirstChar(a, '\n', b);
  }

  /** Two words separated by a line break alone are glued together, e.g. `Hello\nworld` becomes `Helloworld`. */
  lemma CleanTextJoinsWords(a: string, b: string)
    requires forall k :: 0 <= k < |a| ==> !IsSpace(a[k])
    requires forall k :: 0 <= k < |b| ==> !IsSpace(b[k])
    ensures CleanText(a + "\n" + b) == a + b
  {
    CleanTextDropsFirstNewline(a, b);
    var ab := a + b;
    forall k | 0 <= k < |ab|
      ensures !IsSpace(ab[k])
    {
      if k >= |a| {
        assert ab[k] == b[k - |a|];
      }
    }
    CollapseFixpoint(ab);
  }

  /**
   * What a match pushes: `str.replace('  ', ' ').trim()`. The result is a
   * trimmed piece of the text after its first double space is halved, with
   * every non-space character kept; text already in that form is unchanged.
   */
  function Finish(str: string): (r: string)
    ensures r == [] || (!IsSpace(r[0]) && !IsSpace(r[|r| - 1]))
    ensures |r| <= |str|
    ensures NonSpaces(r) == NonSpaces(str)
    ensures Contains(ReplaceFirst(str, "  ", " "), r)
    ensures (str == [] || (!IsSpace(str[0]) && !IsSpace(str[|str| - 1]))) && !Contains(str, "  ") ==> r == str
  {
    var halved := ReplaceFirst(str, "  ", " ");
    ReplaceSpacesKeepsText(str, "  ", " ");
    NonSpacesTrim(halved);
    TrimIsSlice(halved);
    Trim(halved)
  }

  // ---------------------------------------------------------------------------
  // The JSX flattener of MyVisitor

  /** The counters `{elementIndex, unknownIndex}` of one flattening. */
  datatype Counters = Counters(elementIndex: nat, unknownIndex: nat)

  datatype Flat = Flat(text: string, counters: Counters)

  function Prepend(s: string, f: Flat): Flat {
    Flat(s + f.text, f.counters)
  }

  /**
   * `MyVisitor.parseTextFromJSXElement`: every non-root element takes a marker
   * index (there is no Trans exception), text is cleaned, and a JSX element in
   * an expression container is an unknown `{n}` placeholder.
   */
  function FlattenJsx(n: Node, c: Counters, isRoot: bool): Flat
    decreases n
  {
    match n
    case JsxText(_, value) => Flat(CleanText(value), c)
    case JsxElement(_, _, _, children, hasClosing) =>
      var open :=
        if isRoot then ""
        else if hasClosing then "<" + NatToDecimal(c.elementIndex) + ">"
        else "<" + NatToDecimal(c.elementIndex) + "/>";
      var inner := FlattenJsxChildren(children, if isRoot then c else c.(elementIndex := c.elementIndex + 1));
      var close := if hasClosing && !isRoot then "</" + NatToDecimal(c.elementIndex) + ">" else "";
      Flat(open + inner.text + close, inner.counters)
    case JsxContainer(_, e) =>
      if e.Identifier? then Flat("{" + CleanIdentifier(e.name) + "}", c)
      else if e.StringLiteral? then Flat(e.value, c)
      else if e.TemplateLiteral? then Flat(Templates.TemplateText(e.template, CleanIdentifier), c)
      else Flat("{" + NatToDecimal(c.unknownIndex) + "}", c.(unknownIndex := c.unknownIndex + 1))
    case _ => Flat("", c)
  }

  function FlattenJsxChildren(cs: seq<Node>, c: Counters): Flat
    decreases cs
  {
    if cs == [] then Flat("", c)
    else
      var first := FlattenJsx(cs[0], c, false);
      Prepend(first.text, FlattenJsxChildren(cs[1..], first.counters))
  }

  /** The number of elements that take a marker index: every element below the root. */
  function Marked(n: Node, isRoot: bool): nat
    decreases n
  {
    match n
    case JsxElement(_, _, _, children, _) => (if isRoot then 0 else 1) + MarkedAll(children)
    case _ => 0
  }

  function MarkedAll(cs: seq<Node>): nat
    decreases cs
  {
    if cs == [] then 0 else Marked(cs[0], false) + MarkedAll(cs[1..])
  }

  /** The number of `{n}` placeholders: containers holding anything but an identifier, string or template. */
  function Unknowns(n: Node): nat
    decreases n
  {
    match n
    case JsxElement(_, _, _, children, _) => UnknownsAll(children)
    case JsxContainer(_, e) =>
      if e.Identifier? || e.StringLiteral? || e.TemplateLiteral? then 0 else 1
    case _ => 0
  }

  function UnknownsAll(cs: seq<Node>): nat
    decreases cs
  {
    if cs == [] then 0 else Unknowns(cs[0]) + UnknownsAll(cs[1..])
  }

  /** Each marker and each placeholder takes the next index of its counter. */
  lemma {:induction false} CountersAdvance(n: Node, c: Counters, isRoot: bool)
    ensures FlattenJsx(n, c, isRoot).counters
         == Counters(c.elementIndex + Marked(n, isRoot), c.unknownIndex + Unknowns(n))
    decreases n
  {
    if n.JsxElement? {
      CountersAdvanceChildren(n.children, if isRoot then c else c.(elementIndex := c.elementIndex + 1));
    }
  }

  lemma {:induction false} CountersAdvanceChildren(cs: seq<Node>, c: Counters)
    ensures FlattenJsxChildren(cs, c).counters
         == Counters(c.elementIndex + MarkedAll(cs), c.unknownIndex + UnknownsAll(cs))
    decreases cs
  {
    if cs != [] {
      CountersAdvance(cs[0], c, false);
      CountersAdvanceChildren(cs[1..], FlattenJsx(cs[0], c, false).counters);
    }
  }

  lemma ChildrenStep(cs: seq<Node>, i: nat, c: Counters)
    requires i < |cs|
    ensures FlattenJsxChildren(cs[i..], c)
         == Prepend(FlattenJsx(cs[i], c, false).text, FlattenJsxChildren(cs[i + 1..], FlattenJsx(cs[i], c, false).counters))
  {
    assert cs[i..][0] == cs[i] && cs[i..][1..] == cs[i + 1..];
  }

  /** The context object `{elementIndex, unknownIndex}`. */
  class JsxCounters {
    var elementIndex: nat
    var unknownIndex: nat

    constructor (elementIndex: nat, unknownIndex: nat)
      ensures this.elementIndex == elementIndex && this.unknownIndex == unknownIndex
    {
      this.elementIndex := elementIndex;
      this.unknownIndex := unknownIndex;
    }

    function State(): Counters
      reads this
    {
      Counters(elementIndex, unknownIndex)
    }
  }

  // ---------------------------------------------------------------------------
  // The walk

  /** The corrected tag test: a member expression whose object is the identifier `i18n`. */
  predicate TagIsI18n(tag: Node) {
    tag.Member? && tag.obj.Identifier? && tag.obj.name == "i18n"
  }

  /**
   * The tag test as written: it reads `tag.object.type`, which throws a
   * TypeError (`None`) when the tag is not a member expression.
   */
  function TagTestAsWritten(tag: Node): (r: Option<bool>)
    ensures r.None? <==> !tag.Member?
  {
    if !tag.Member? then None else Some(tag.obj.Identifier? && tag.obj.name == "i18n")
  }

  /** Where the code as written does not throw, it agrees with the corrected test. */
  lemma TagTestAgrees(tag: Node)
    ensures TagTestAsWritten(tag).Some? ==> TagTestAsWritten(tag).value == TagIsI18n(tag)
    ensures TagTestAsWritten(tag).None? ==> !TagIsI18n(tag)
  {
  }

  /** A template tagged with a plain identifier, such as `gql`, throws as written. */
  lemma PlainTagThrows(start: int, name: string)
    ensures TagTestAsWritten(Identifier(start, name)).None?
    ensures !TagIsI18n(Identifier(start, name))
  {
  }

  /** The text a matched tagged template pushes. */
  function TemplateMatchText(t: Template): string {
    Finish(Templates.TemplateText(t, CleanIdentifier))
  }

  /** The text a matched `<T>` element pushes: flattened as the root, with fresh counters. */
  function ElementMatchText(n: Node): string {
    Finish(FlattenJsx(n, Counters(0, 0), true).text)
  }

  /**
   * The strings a visit of `n` appends to `translatableStrings`, in order:
   * the nested matches first, then `n`'s own.
   */
  function Walk(n: Node): seq<string>
    decreases n
  {
    match n
    case TaggedTemplate(_, tag, t) =>
      Walk(tag) + WalkAll(t.expressions) + (if TagIsI18n(tag) then [TemplateMatchText(t)] else [])
    case JsxElement(_, name, attributes, children, _) =>
      WalkAttributes(attributes) + WalkAll(children) + (if name == "T" then [ElementMatchText(n)] else [])
    case TsType(_, _) => []
    case TemplateLiteral(_, t) => WalkAll(t.expressions)
    case Member(_, obj, _) => Walk(obj)
    case Call(_, callee, arguments) => Walk(callee) + WalkAll(arguments)
    case ObjectLiteral(_, properties) => WalkProperties(properties)
    case JsxContainer(_, e) => Walk(e)
    case Other(_, children) => WalkAll(children)
    case _ => []
  }

  function WalkAll(ns: seq<Node>): seq<string>
    decreases ns
  {
    if ns == [] then [] else Walk(ns[0]) + WalkAll(ns[1..])
  }

  function WalkAttributes(attrs: seq<JsxAttribute>): seq<string>
    decreases attrs
  {
    if attrs == [] then [] else Walk(attrs[0].value) + WalkAttributes(attrs[1..])
  }

  function WalkProperty(p: Property): seq<string>
    decreases p
  {
    match p
    case KeyValue(_, value) => Walk(value)
    case Shorthand(_) => []
    case OtherProperty(children) => WalkAll(children)
  }

  function WalkProperties(props: seq<Property>): seq<string>
    decreases props
  {
    if props == [] then [] else WalkProperty(props[0]) + WalkProperties(props[1..])
  }

  /** The number of matched constructs in `n`. */
  function Matches(n: Node): nat
    decreases n
  {
    match n
    case TaggedTemplate(_, tag, t) => Matches(tag) + MatchesAll(t.expressions) + (if TagIsI18n(tag) then 1 else 0)
    case JsxElement(_, name, attributes, children, _) =>
      MatchesAttributes(attributes) + MatchesAll(children) + (if name == "T" then 1 else 0)
    case TsType(_, _) => 0
    case TemplateLiteral(_, t) => MatchesAll(t.expressions)
    case Member(_, obj, _) => Matches(obj)
    case Call(_, callee, arguments) => Matches(callee) + MatchesAll(arguments)
    case ObjectLiteral(_, properties) => MatchesProperties(properties)
    case JsxContainer(_, e) => Matches(e)
    case Other(_, children) => MatchesAll(children)
    case _ => 0
  }

  function MatchesAll(ns: seq<Node>): nat
    decreases ns
  {
    if ns == [] then 0 else Matches(ns[0]) + MatchesAll(ns[1..])
  }

  function MatchesAttributes(attrs: seq<JsxAttribute>): nat
    decreases attrs
  {
    if attrs == [] then 0 else Matches(attrs[0].value) + MatchesAttributes(attrs[1..])
  }

  function MatchesProperty(p: Property): nat
    decreases p
  {
    match p
    case KeyValue(_, value) => Matches(value)
    case Shorthand(_) => 0
    case OtherProperty(children) => MatchesAll(children)
  }

  function MatchesProperties(props: seq<Property>): nat
    decreases props
  {
    if props == [] then 0 else MatchesProperty(props[0]) + MatchesProperties(props[1..])
  }

  /** Every match appends exactly one string; duplicates are kept. */
  lemma {:induction false} WalkCount(n: Node)
    ensures |Walk(n)| == Matches(n)
    decreases n
  {
    match n
    case TaggedTemplate(_, tag, t) => WalkCount(tag); WalkCountAll(t.expressions);
    case JsxElement(_, _, attributes, children, _) => WalkCountAttributes(attributes); WalkCountAll(children);
    case TsType(_, _) =>
    case TemplateLiteral(_, t) => WalkCountAll(t.expressions);
    case Member(_, obj, _) => WalkCount(obj);
    case Call(_, callee, arguments) => WalkCount(callee); WalkCountAll(arguments);
    case ObjectLiteral(_, properties) => WalkCountProperties(properties);
    case JsxContainer(_, e) => WalkCount(e);
    case Other(_, children) => WalkCountAll(children);
    case _ =>
  }

  lemma {:induction false} WalkCountAll(ns: seq<Node>)
    ensures |WalkAll(ns)| == MatchesAll(ns)
    decreases ns
  {
    if ns != [] {
      WalkCount(ns[0]);
      WalkCountAll(ns[1..]);
    }
  }

  lemma {:induction false} WalkCountAttributes(attrs: seq<JsxAttribute>)
    ensures |WalkAttributes(attrs)| == MatchesAttributes(attrs)
    decreases attrs
  {
    if attrs != [] {
      WalkCount(attrs[0].value);
      WalkCountAttributes(attrs[1..]);
    }
  }

  lemma {:induction false} WalkCountProperties(props: seq<Property>)
    ensures |WalkProperties(props)| == MatchesProperties(props)
    decreases props
  {
    if props != [] {
      WalkCountProperty(props[0]);
      WalkCountProperties(props[1..]);
    }
  }

  lemma {:induction false} WalkCountProperty(p: Property)
    ensures |WalkProperty(p)| == MatchesProperty(p)
    decreases p
  {
    match p
    case KeyValue(_, value) => WalkCount(value);
    case Shorthand(_) =>
    case OtherProperty(children) => WalkCountAll(children);
  }

  predicate Trimmed(s: string) {
    s == [] || (!IsSpace(s[0]) && !IsSpace(s[|s| - 1]))
  }

  /** Every string of `ss` is trimmed. */
  predicate AllTrimmed(ss: seq<string>) {
    ss == [] || (Trimmed(ss[0]) && AllTrimmed(ss[1..]))
  }

  /** Every string the walk collects is trimmed. */
  lemma {:induction false} WalkTrimmed(n: Node)
    ensures AllTrimmed(Walk(n))
    decreases n, 1
  {
    match n
    case TaggedTemplate(_, _, _) => WalkTrimmedTagged(n);
    case JsxElement(_, _, _, _, _) => WalkTrimmedElement(n);
    case TsType(_, _) =>
    case TemplateLiteral(_, t) => WalkTrimmedAll(t.expressions);
    case Member(_, obj, _) => WalkTrimmed(obj);
    case Call(_, callee, arguments) =>
      WalkTrimmed(callee); WalkTrimmedAll(arguments);
      TrimmedConcat(Walk(callee), WalkAll(arguments));
    case ObjectLiteral(_, properties) => WalkTrimmedProperties(properties);
    case JsxContainer(_, e) => WalkTrimmed(e);
    case Other(_, children) => WalkTrimmedAll(children);
    case _ =>
  }

  lemma {:induction false} WalkTrimmedTagged(n: Node)
    requires n.TaggedTemplate?
    ensures AllTrimmed(Walk(n))
    decreases n, 0
  {
    WalkTrimmed(n.tag);
    WalkTrimmedAll(n.template.expressions);
    TrimmedConcat(Walk(n.tag), WalkAll(n.template.expressions));
    TaggedOwnTrimmed(n.tag, n.template);
    TrimmedConcat(Walk(n.tag) + WalkAll(n.template.expressions),
                  if TagIsI18n(n.tag) then [TemplateMatchText(n.template)] else []);
  }

  lemma TaggedOwnTrimmed(tag: Node, t: Template)
    ensures AllTrimmed(if TagIsI18n(tag) then [TemplateMatchText(t)] else [])
  {
    FinishedTrimmed(Templates.TemplateText(t, CleanIdentifier));
  }

  lemma {:induction false} WalkTrimmedElement(n: Node)
    requires n.JsxElement?
    ensures AllTrimmed(Walk(n))
    decreases n, 0
  {
    WalkTrimmedAttributes(n.attributes);
    WalkTrimmedAll(n.children);
    TrimmedConcat(WalkAttributes(n.attributes), WalkAll(n.children));
    FinishedTrimmed(FlattenJsx(n, Counters(0, 0), true).text);
    TrimmedConcat(WalkAttributes(n.attributes) + WalkAll(n.children),
                  if n.name == "T" then [ElementMatchText(n)] else []);
  }

  lemma FinishedTrimmed(str: string)
    ensures AllTrimmed([Finish(str)])
  {
    var r := Finish(str);
    assert Trimmed(r);
    assert [r][1..] == [];
  }

  /** Appending an element's walk is appending its attributes', its children's and its own strings in turn. */
  lemma ElementWalkSplit(before: seq<string>, n: Node)
    requires n.JsxElement?
    ensures before + Walk(n)
         == ((before + WalkAttributes(n.attributes)) + WalkAll(n.children)) + (if n.name == "T" then [ElementMatchText(n)] else [])
  {
    var a, b, c := WalkAttributes(n.attributes), WalkAll(n.children), if n.name == "T" then [ElementMatchText(n)] else [];
    assert Walk(n) == (a + b) + c;
    ConcatAssociative(before, a + b, c);
    ConcatAssociative(before, a, b);
  }

  lemma {:induction false} TrimmedConcat(a: seq<string>, b: seq<string>)
    requires AllTrimmed(a) && AllTrimmed(b)
    ensures AllTrimmed(a + b)
    decreases |a|
  {
    if a == [] {
      assert a + b == b;
    } else {
      assert (a + b)[0] == a[0] && (a + b)[1..] == a[1..] + b;
      TrimmedConcat(a[1..], b);
    }
  }

  lemma {:induction false} WalkTrimmedAll(ns: seq<Node>)
    ensures AllTrimmed(WalkAll(ns))
    decreases ns
  {
    if ns != [] {
      WalkTrimmed(ns[0]);
      WalkTrimmedAll(ns[1..]);
      TrimmedConcat(Walk(ns[0]), WalkAll(ns[1..]));
    }
  }

  lemma {:induction false} WalkTrimmedAttributes(attrs: seq<JsxAttribute>)
    ensures AllTrimmed(WalkAttributes(attrs))
    decreases attrs
  {
    if attrs != [] {
      WalkTrimmed(attrs[0].value);
      WalkTrimmedAttributes(attrs[1..]);
      TrimmedConcat(Walk(attrs[0].value), WalkAttributes(attrs[1..]));
    }
  }

  lemma {:induction false} WalkTrimmedProperties(props: seq<Property>)
    ensures AllTrimmed(WalkProperties(props))
    decreases props
  {
    if props != [] {
      WalkTrimmedProperty(props[0]);
      WalkTrimmedProperties(props[1..]);
      TrimmedConcat(WalkProperty(props[0]), WalkProperties(props[1..]));
    }
  }

  lemma {:induction false} WalkTrimmedProperty(p: Property)
    ensures AllTrimmed(WalkProperty(p))
    decreases p
  {
    match p
    case KeyValue(_, value) => WalkTrimmed(value);
    case Shorthand(_) =>
    case OtherProperty(children) => WalkTrimmedAll(children);
  }

  /**
   * A `<T>` element's own string comes last, after every string found in its
   * attributes and children.
   */
  lemma EnclosingComesLast(n: Node)
    requires n.JsxElement? && n.name == "T"
    ensures |Walk(n)| > 0
    ensures Walk(n)[|Walk(n)| - 1] == ElementMatchText(n)
    ensures Walk(n)[..|Walk(n)| - 1] == WalkAttributes(n.attributes) + WalkAll(n.children)
  {
    var nested := WalkAttributes(n.attributes) + WalkAll(n.children);
    assert Walk(n) == nested + [ElementMatchText(n)];
    assert (nested + [ElementMatchText(n)])[..|nested|] == nested;
  }

  // ---------------------------------------------------------------------------
  // MyVisitor

  class MyVisitor {
    var translatableStrings: seq<string>

    constructor ()
      ensures translatableStrings == []
    {
      translatableStrings := [];
    }

    /** The base visitor's dispatch on the node kind. */
    method Visit(n: Node)
      modifies this
      ensures translatableStrings == old(translatableStrings) + Walk(n)
      decreases n, 1
    {
      match n
      case TaggedTemplate(_, _, _) => VisitTaggedTemplateExpression(n);
      case JsxElement(_, _, _, _, _) => VisitJSXElement(n);
      case TsType(_, _) => VisitTsType(n);
      case TemplateLiteral(_, t) => VisitAll(t.expressions);
      case Member(_, obj, _) => Visit(obj);
      case Call(_, callee, arguments) =>
        Visit(callee);
        VisitAll(arguments);
      case ObjectLiteral(_, properties) => VisitProperties(properties);
      case JsxContainer(_, e) => Visit(e);
      case Other(_, children) => VisitAll(children);
      case Identifier(_, _) =>
      case StringLiteral(_, _) =>
      case NumericLiteral(_, _) =>
      case JsxText(_, _) =>
    }

    method VisitAll(ns: seq<Node>)
      modifies this
      ensures translatableStrings == old(translatableStrings) + WalkAll(ns)
      decreases ns, 1
    {
      var i := 0;
      assert ns[0..] == ns;
      while i < |ns|
        invariant 0 <= i <= |ns|
        invariant old(translatableStrings) + WalkAll(ns) == translatableStrings + WalkAll(ns[i..])
      {
        assert ns[i..][0] == ns[i] && ns[i..][1..] == ns[i + 1..];
        Visit(ns[i]);
        i := i + 1;
      }
      assert ns[|ns|..] == [];
    }

    method VisitAttributes(attrs: seq<JsxAttribute>)
      modifies this
      ensures translatableStrings == old(translatableStrings) + WalkAttributes(attrs)
      decreases attrs, 1
    {
      var i := 0;
      assert attrs[0..] == attrs;
      while i < |attrs|
        invariant 0 <= i <= |attrs|
        invariant old(translatableStrings) + WalkAttributes(attrs) == translatableStrings + WalkAttributes(attrs[i..])
      {
        assert attrs[i..][0] == attrs[i] && attrs[i..][1..] == attrs[i + 1..];
        Visit(attrs[i].value);
        i := i + 1;
      }
      assert attrs[|attrs|..] == [];
    }

    method VisitProperties(props: seq<Property>)
      modifies this
      ensures translatableStrings == old(translatableStrings) + WalkProperties(props)
      decreases props, 1
    {
      var i := 0;
      assert props[0..] == props;
      while i < |props|
        invariant 0 <= i <= |props|
        invariant old(translatableStrings) + WalkProperties(props) == translatableStrings + WalkProperties(props[i..])
      {
        assert props[i..][0] == props[i] && props[i..][1..] == props[i + 1..];
        VisitProperty(props[i]);
        i := i + 1;
      }
      assert props[|props|..] == [];
    }

    method VisitProperty(p: Property)
      modifies this
      ensures translatableStrings == old(translatableStrings) + WalkProperty(p)
      decreases p, 1
    {
      match p
      case KeyValue(_, value) => Visit(value);
      case Shorthand(_) =>
      case OtherProperty(children) => VisitAll(children);
    }

    /** `visitTaggedTemplateExpression`: children first, then the `i18n` match. */
    method VisitTaggedTemplateExpression(n: Node)
      requires n.TaggedTemplate?
      modifies this
      ensures translatableStrings == old(translatableStrings) + Walk(n)
      decreases n, 0
    {
      ghost var before := translatableStrings;
      ghost var nested := Walk(n.tag) + WalkAll(n.template.expressions);
      Visit(n.tag);
      VisitAll(n.template.expressions);
      assert translatableStrings == before + nested;
      if !TagIsI18n(n.tag) {
        assert Walk(n) == nested + [];
        return;
      }
      var str := Templates.ParseTextFromTemplateLiteral(n.template, CleanIdentifier);
      translatableStrings := translatableStrings + [Finish(str)];
      assert Walk(n) == nested + [TemplateMatchText(n.template)];
    }

    /** `visitJSXElement`: children first, then the `<T>` match with fresh counters. */
    method VisitJSXElement(n: Node)
      requires n.JsxElement?
      modifies this
      ensures translatableStrings == old(translatableStrings) + Walk(n)
      decreases n, 0
    {
      ghost var before := translatableStrings;
      VisitAttributes(n.attributes);
      VisitAll(n.children);
      PushElementMatch(n);
      ElementWalkSplit(before, n);
    }

    /** The `<T>` match of `visitJSXElement`, once the children have been visited. */
    method PushElementMatch(n: Node)
      requires n.JsxElement?
      modifies this
      ensures translatableStrings == old(translatableStrings) + (if n.name == "T" then [ElementMatchText(n)] else [])
    {
      if n.name != "T" {
        assert translatableStrings + [] == translatableStrings;
        return;
      }
      var str := RootText(n);
      assert Finish(str) == ElementMatchText(n);
      translatableStrings := translatableStrings + [Finish(str)];
    }

    /** `this.parseTextFromJSXElement(node, { elementIndex: 0, unknownIndex: 0 }, true)`. */
    method RootText(n: Node) returns (str: string)
      ensures str == FlattenJsx(n, Counters(0, 0), true).text
    {
      var context := new JsxCounters(0, 0);
      str := ParseTextFromJSXElement(n, context, true);
    }

    /** `visitTsType`: types are not walked. */
    method VisitTsType(n: Node)
      requires n.TsType?
      ensures translatableStrings == old(translatableStrings) + Walk(n)
      decreases n, 0
    {
    }

    /** `parseTextFromJSXElement` of `MyVisitor`. */
    method ParseTextFromJSXElement(element: Node, context: JsxCounters, isRoot: bool) returns (str: string)
      modifies context
      ensures Flat(str, context.State()) == FlattenJsx(element, old(context.State()), isRoot)
      decreases element, 1
    {
      str := "";
      if element.JsxText? {
        var value := CleanText(element.value);
        if value != "" {
          str := value;
        }
      } else if element.JsxElement? {
        str := ParseElementText(element, context, isRoot);
      } else if element.JsxContainer? {
        str := ParseContainerText(element, context);
      }
    }

    /** The expression-container branch of `parseTextFromJSXElement`. */
    method ParseContainerText(element: Node, context: JsxCounters) returns (str: string)
      requires element.JsxContainer?
      modifies context
      ensures Flat(str, context.State()) == FlattenJsx(element, old(context.State()), false)
    {
      var e := element.expression;
      if e.Identifier? {
        str := "{" + CleanIdentifier(e.name) + "}";
      } else if e.StringLiteral? {
        str := e.value;
      } else if e.TemplateLiteral? {
        str := Templates.ParseTextFromTemplateLiteral(e.template, CleanIdentifier);
      } else {
        str := "{" + NatToDecimal(context.unknownIndex) + "}";
        context.unknownIndex := context.unknownIndex + 1;
      }
    }

    /** The element branch of `parseTextFromJSXElement`: open marker, children, close marker. */
    method ParseElementText(element: Node, context: JsxCounters, isRoot: bool) returns (str: string)
      requires element.JsxElement?
      modifies context
      ensures Flat(str, context.State()) == FlattenJsx(element, old(context.State()), isRoot)
      decreases element, 0
    {
      var elementIndex := context.elementIndex;
      var open, close := "", "";
      if !isRoot {
        if !element.hasClosing {
          open := "<" + NatToDecimal(elementIndex) + "/>";
        } else {
          open := "<" + NatToDecimal(elementIndex) + ">";
        }
        context.elementIndex := context.elementIndex + 1;
      }
      var inner := ParseChildrenText(element.children, context);
      if element.hasClosing && !isRoot {
        close := "</" + NatToDecimal(elementIndex) + ">";
      }
      str := open + inner + close;
    }

    /** The `children.forEach` of `parseTextFromJSXElement`. */
    method ParseChildrenText(children: seq<Node>, context: JsxCounters) returns (str: string)
      modifies context
      ensures Flat(str, context.State()) == FlattenJsxChildren(children, old(context.State()))
      decreases children
    {
      str := "";
      var i := 0;
      assert children[0..] == children;
      while i < |children|
        invariant 0 <= i <= |children|
        invariant FlattenJsxChildren(children, old(context.State()))
               == Prepend(str, FlattenJsxChildren(children[i..], context.State()))
      {
        ChildrenStep(children, i, context.State());
        var s := ParseTextFromJSXElement(children[i], context, false);
        str, i := str + s, i + 1;
      }
      assert children[|children|..] == [];
      assert str + "" == str;
    }
  }

  /** `extractFromFile` after parsing: a fresh visitor walks the program and returns what it collected. */
  method ExtractFromProgram(program: Node) returns (strings: seq<string>)
    ensures strings == Walk(program)
  {
    var visitor := new MyVisitor();
    visitor.Visit(program);
    strings := visitor.translatableStrings;
  }
}
