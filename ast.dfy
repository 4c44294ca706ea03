/**
 * The part of the swc syntax tree the extractor reads. Every node carries
 * the start offset of its span (`span.start`); only template literals use it.
 * Node kinds the extractor never inspects are folded into `Other`, which
 * keeps the children a traversal would visit.
 */
module Ast {

  /** A `TemplateElement` (quasi) of a template literal, with its `raw` text. */
  datatype TemplateElement = TemplateElement(start: int, raw: string)

  /** The quasis and the embedded expressions of a template literal, as two lists. */
  datatype Template = Template(quasis: seq<TemplateElement>, expressions: seq<Node>)

  /** The key of a `KeyValueProperty`: an identifier or string key, or a numeric key. */
  datatype PropKey = NameKey(name: string) | NumKey(num: nat)

  /** A member of an object literal: `key: value`, the shorthand `{ name }`, or anything else. */
  datatype Property =
    | KeyValue(key: PropKey, value: Node)
    | Shorthand(name: string)
    | OtherProperty(children: seq<Node>)

  /** A JSX attribute `name=value`; `value` is a literal, an element or an expression container. */
  datatype JsxAttribute = JsxAttribute(name: string, value: Node)

  datatype Node =
    | Identifier(start: int, name: string)
    | StringLiteral(start: int, value: string)
    | NumericLiteral(start: int, num: nat)
    | TemplateLiteral(start: int, template: Template)
    | TaggedTemplate(start: int, tag: Node, template: Template)
    | Member(start: int, obj: Node, property: string)
    | Call(start: int, callee: Node, arguments: seq<Node>)
    | ObjectLiteral(start: int, properties: seq<Property>)
      /** `hasClosing` is false for a self-closing element `<x/>`. */
    | JsxElement(start: int, name: string, attributes: seq<JsxAttribute>, children: seq<Node>, hasClosing: bool)
    | JsxText(start: int, value: string)
    | JsxContainer(start: int, expression: Node)
      /** A TypeScript type; its children are the nodes nested in the type. */
    | TsType(start: int, children: seq<Node>)
    | Other(start: int, children: seq<Node>)
}
