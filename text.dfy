/**
 * Textual helpers shared by the emitters: Java's decimal rendering of an int
 * (Integer.toString, used by "Actor-" + n and by the state attributes) and a
 * small structured view of the XML documents the system writes, against which
 * the hand-concatenated emitters are proved.
 */
module Text {

  /** The decimal digit for d. */
  function DigitChar(d: nat): (c: char)
    requires d < 10
    ensures '0' <= c <= '9'
  {
    (48 + d) as char
  }

  /** Decimal representation of a natural number, most significant digit first, no leading zeros. */
  function NatToString(n: nat): (s: string)
    ensures 1 <= |s|
    ensures forall i :: 0 <= i < |s| ==> '0' <= s[i] <= '9'
    ensures |s| == 1 <==> n < 10
    decreases n
  {
    if n < 10 then [DigitChar(n)] else NatToString(n / 10) + [DigitChar(n % 10)]
  }

  /** Java's Integer.toString: a '-' sign for negative values, then the digits. */
  function IntToString(n: int): (s: string)
    ensures 1 <= |s|
    ensures s[0] == '-' <==> n < 0
  {
    if n < 0 then "-" + NatToString(-n) else NatToString(n)
  }

  /** Different numbers have different decimal representations. */
  lemma {:induction false} NatToStringInjective(m: nat, n: nat)
    requires NatToString(m) == NatToString(n)
    ensures m == n
  {
    if m >= 10 && n >= 10 {
      var sm, sn := NatToString(m), NatToString(n);
      assert sm[|sm| - 1] == DigitChar(m % 10);
      assert sn[|sn| - 1] == DigitChar(n % 10);
      assert NatToString(m / 10) == sm[..|sm| - 1];
      assert NatToString(n / 10) == sn[..|sn| - 1];
      NatToStringInjective(m / 10, n / 10);
    }
  }

  /** Integer.toString is injective, so distinct actor numbers give distinct names. */
  lemma IntToStringInjective(m: int, n: int)
    requires IntToString(m) == IntToString(n)
    ensures m == n
  {
    if m < 0 {
      assert NatToString(-m) == IntToString(m)[1..];
      assert NatToString(-n) == IntToString(n)[1..];
      NatToStringInjective(-m, -n);
    } else {
      NatToStringInjective(m, n);
    }
  }

  // ---------------------------------------------------------------------------
  // XML documents as the emitters lay them out: four spaces of indentation per
  // level, attributes written name="value" without escaping, one element per line.

  /** An XML element: either empty (`<tag a="v" />`) or with children on their own lines. */
  datatype Node =
    | Leaf(tag: string, attrs: seq<(string, string)>)
    | Branch(tag: string, attrs: seq<(string, string)>, children: seq<Node>)

  /** Four spaces per nesting level. */
  function Indent(depth: nat): (s: string)
    ensures |s| == 4 * depth
    ensures forall i :: 0 <= i < |s| ==> s[i] == ' '
  {
    if depth == 0 then "" else "    " + Indent(depth - 1)
  }

  /** One attribute, preceded by its separating blank. */
  function AttrText(name: string, value: string): string
  {
    " " + name + "=\"" + value + "\""
  }

  /** The attribute list of a start tag, in order. */
  function AttrsText(attrs: seq<(string, string)>): string
  {
    if attrs == [] then "" else AttrText(attrs[0].0, attrs[0].1) + AttrsText(attrs[1..])
  }

  /** The text of an element at the given nesting depth. */
  function Render(n: Node, depth: nat): string
  {
    match n
    case Leaf(tag, attrs) =>
      Indent(depth) + "<" + tag + AttrsText(attrs) + " />\n"
    case Branch(tag, attrs, children) =>
      Indent(depth) + "<" + tag + AttrsText(attrs) + ">\n"
      + RenderAll(children, depth + 1)
      + Indent(depth) + "</" + tag + ">\n"
  }

  /** Sibling elements, one after the other. */
  function RenderAll(ns: seq<Node>, depth: nat): string
  {
    if ns == [] then "" else Render(ns[0], depth) + RenderAll(ns[1..], depth)
  }

  /** The names of an element's attributes, in the order they are written. */
  function AttrNames(attrs: seq<(string, string)>): (names: seq<string>)
    ensures |names| == |attrs|
    ensures forall i :: 0 <= i < |attrs| ==> names[i] == attrs[i].0
  {
    if attrs == [] then [] else [attrs[0].0] + AttrNames(attrs[1..])
  }

  /** The attribute text of a concatenation of attribute lists. */
  lemma {:induction false} AttrsTextAppend(a: seq<(string, string)>, b: seq<(string, string)>)
    ensures AttrsText(a + b) == AttrsText(a) + AttrsText(b)
  {
    if a == [] {
      assert a + b == b;
    } else {
      assert (a + b)[1..] == a[1..] + b;
      AttrsTextAppend(a[1..], b);
    }
  }

  /** Rendering a concatenation of siblings renders each part in turn. */
  lemma {:induction false} RenderAllAppend(a: seq<Node>, b: seq<Node>, depth: nat)
    ensures RenderAll(a + b, depth) == RenderAll(a, depth) + RenderAll(b, depth)
  {
    if a == [] {
      assert a + b == b;
    } else {
      assert (a + b)[1..] == a[1..] + b;
      RenderAllAppend(a[1..], b, depth);
    }
  }

  /** A top-level element is written without indentation. */
  lemma TopLevelText(tag: string, attrs: seq<(string, string)>, children: seq<Node>)
    ensures Render(Branch(tag, attrs, children), 0)
         == "<" + tag + AttrsText(attrs) + ">\n" + RenderAll(children, 1) + "</" + tag + ">\n"
  {
    assert Indent(0) == "";
  }

  /** Concatenation regrouped. */
  lemma Assoc(a: string, b: string, c: string)
    ensures a + b + c == a + (b + c)
  {
  }

  /** The text of a two-attribute list. */
  lemma TwoAttrs(n1: string, v1: string, n2: string, v2: string)
    ensures AttrsText([(n1, v1), (n2, v2)]) == AttrText(n1, v1) + AttrText(n2, v2)
  {
    var attrs := [(n1, v1), (n2, v2)];
    assert attrs[1..][1..] == [];
    assert AttrsText(attrs[1..]) == AttrText(n2, v2) + "" == AttrText(n2, v2);
  }

  /** The text of a three-attribute list. */
  lemma ThreeAttrs(n1: string, v1: string, n2: string, v2: string, n3: string, v3: string)
    ensures AttrsText([(n1, v1), (n2, v2), (n3, v3)]) == AttrText(n1, v1) + AttrText(n2, v2) + AttrText(n3, v3)
  {
    var attrs := [(n1, v1), (n2, v2), (n3, v3)];
    assert attrs[1..] == [(n2, v2), (n3, v3)];
    TwoAttrs(n2, v2, n3, v3);
    Assoc(AttrText(n1, v1), AttrText(n2, v2), AttrText(n3, v3));
  }

  /** An element with children: its start tag, attributes, children and end tag. */
  lemma BranchText(tag: string, attrs: seq<(string, string)>, children: seq<Node>, depth: nat)
    ensures Render(Branch(tag, attrs, children), depth)
         == (Indent(depth) + "<" + tag) + AttrsText(attrs) + ">\n" + RenderAll(children, depth + 1)
            + (Indent(depth) + "</" + tag + ">\n")
  {
    var front := Indent(depth) + "<" + tag + AttrsText(attrs) + ">\n" + RenderAll(children, depth + 1);
    Assoc(front, Indent(depth), "</");
    Assoc(front, Indent(depth) + "</", tag);
    Assoc(front, Indent(depth) + "</" + tag, ">\n");
  }

  /** Five pieces appended one by one after a head, regrouped. */
  lemma Assoc5(head: string, a: string, b: string, c: string, d: string, e: string)
    ensures head + a + b + c + d + e == head + (a + b + c + d + e)
  {
    Assoc(head, a, b);
    Assoc(head, a + b, c);
    Assoc(head, a + b + c, d);
    Assoc(head, a + b + c + d, e);
  }
}
