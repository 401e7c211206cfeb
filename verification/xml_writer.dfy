/** The XML writer (src/xml_writer.cpp): an element is written as its open tag, one line
    per attribute (those of the element's attribute order first, then the others; none
    escaped; an attribute equal to the base element's is left out), its children one tab
    deeper, each name's base element before the first child of that name, and its close
    tag. The node interface (wml_node.hpp) is not part of this model: a node is a value
    holding its prefix, name, attributes in iteration order, attribute order, children,
    and the base elements it registers for child names. */
module XmlWriter {
  import opened Wrappers

  datatype Node = Node(prefix: string, name: string, attrs: seq<(string, string)>, attrOrder: seq<string>,
                       children: seq<Node>, bases: seq<(string, Node)>)

  /** `node->attr(key).str()`: the value of the first attribute so named, "" if none. */
  function Attr(attrs: seq<(string, string)>, key: string): string
  {
    if attrs == [] then ""
    else if attrs[0].0 == key then attrs[0].1
    else Attr(attrs[1..], key)
  }

  /** The position of the base element registered for `name`, -1 if none. */
  function BaseIndex(bases: seq<(string, Node)>, name: string): (r: int)
    ensures -1 <= r < |bases| && (r >= 0 ==> bases[r].0 == name)
    ensures r == -1 <==> forall i :: 0 <= i < |bases| ==> bases[i].0 != name
  {
    if bases == [] then -1
    else if bases[|bases| - 1].0 == name then |bases| - 1
    else BaseIndex(bases[..|bases| - 1], name)
  }

  /** An attribute is left out when the base element has the same value for it. */
  predicate Skipped(base: Option<Node>, key: string, value: string)
  {
    base.Some? && Attr(base.value.attrs, key) == value
  }

  /** The attributes the attribute-order loop writes among the first `k` names of the
      order, as (name, value) pairs in order; an absent attribute is written empty. */
  function OrderedPairs(n: Node, base: Option<Node>, k: nat): seq<(string, string)>
    requires k <= |n.attrOrder|
  {
    if k == 0 then []
    else
      var key := n.attrOrder[k - 1];
      OrderedPairs(n, base, k - 1) + (if Skipped(base, key, Attr(n.attrs, key)) then [] else [(key, Attr(n.attrs, key))])
  }

  /** The attributes the second loop writes among the first `k`: those the attribute
      order does not name. */
  function OtherPairs(n: Node, base: Option<Node>, k: nat): seq<(string, string)>
    requires k <= |n.attrs|
  {
    if k == 0 then []
    else
      var a := n.attrs[k - 1];
      OtherPairs(n, base, k - 1) + (if a.0 in n.attrOrder || Skipped(base, a.0, a.1) then [] else [a])
  }

  /** One attribute line. */
  function AttrLine(indent: string, a: (string, string)): string
  {
    indent + a.0 + "=\"" + a.1 + "\"\n"
  }

  /** One line per attribute, in order. */
  function Lines(indent: string, pairs: seq<(string, string)>): string
  {
    if pairs == [] then "" else Lines(indent, pairs[..|pairs| - 1]) + AttrLine(indent, pairs[|pairs| - 1])
  }

  /** The open tag up to the attributes. */
  function OpenTag(n: Node, indent: string): string
  {
    indent + "<" + (if n.prefix != [] then n.prefix + ":" else "") + n.name + " "
  }

  /** The names of the first `k` children that have a base element. */
  function BasedNames(n: Node, k: nat): set<string>
    requires k <= |n.children|
  {
    if k == 0 then {}
    else BasedNames(n, k - 1) + (if BaseIndex(n.bases, n.children[k - 1].name) >= 0 then {n.children[k - 1].name} else {})
  }

  /** Whether child `i` is preceded by its name's base element. */
  predicate EmitsBase(n: Node, i: nat)
    requires i < |n.children|
  {
    BaseIndex(n.bases, n.children[i].name) >= 0 && n.children[i].name !in BasedNames(n, i)
  }

  /** The open tag and the attribute lines, up to the end of the open tag. */
  function Head(n: Node, indent: string, base: Option<Node>): string
  {
    OpenTag(n, indent) + Lines(indent, OrderedPairs(n, base, |n.attrOrder|)) + Lines(indent, OtherPairs(n, base, |n.attrs|)) + ">\n"
  }

  function CloseTag(n: Node, indent: string): string
  {
    indent + "</" + n.name + ">\n\n"
  }

  /** The text written for an element at `indent`, given its base element. */
  function Text(n: Node, indent: string, base: Option<Node>): string
    decreases n, 2
  {
    Head(n, indent, base) + ChildrenText(n, indent + "\t", |n.children|) + CloseTag(n, indent)
  }

  /** The text of the first `k` children, each preceded by its name's base element when
      it is the first child of that name to have one. */
  function ChildrenText(n: Node, indent: string, k: nat): string
    requires k <= |n.children|
    decreases n, 1, k
  {
    if k == 0 then "" else ChildrenText(n, indent, k - 1) + ChildText(n, indent, k - 1)
  }

  function ChildText(n: Node, indent: string, i: nat): string
    requires i < |n.children|
    decreases n, 0
  {
    var c := n.children[i];
    var b := BaseIndex(n.bases, c.name);
    (if EmitsBase(n, i) then Text(n.bases[b].1, indent, None) else "")
      + Text(c, indent, if b >= 0 then Some(n.bases[b].1) else None)
  }

  /** `output_xml`: the element written at no indentation. */
  function OutputXml(n: Node): string
  {
    Text(n, "", None)
  }

  // ---------------------------------------------------------------- properties

  /** A child is preceded by its base element exactly when it is the first child of its
      name and a base element is registered for that name. */
  lemma {:induction false} BasedNamesAre(n: Node, k: nat)
    requires k <= |n.children|
    ensures forall name :: name in BasedNames(n, k) <==>
              BaseIndex(n.bases, name) >= 0 && exists j :: 0 <= j < k && n.children[j].name == name
  {
    if k > 0 {
      BasedNamesAre(n, k - 1);
      forall name | BaseIndex(n.bases, name) >= 0 && (exists j :: 0 <= j < k && n.children[j].name == name)
        ensures name in BasedNames(n, k)
      {
        var j :| 0 <= j < k && n.children[j].name == name;
        if j < k - 1 {
          assert name in BasedNames(n, k - 1);
        }
      }
    }
  }

  lemma EmitsBaseFirst(n: Node, i: nat)
    requires i < |n.children|
    ensures EmitsBase(n, i) <==>
              BaseIndex(n.bases, n.children[i].name) >= 0 && forall j :: 0 <= j < i ==> n.children[j].name != n.children[i].name
  {
    BasedNamesAre(n, i);
  }

  /** Each name's base element is written once, before the first child of that name. */
  lemma BaseOncePerName(n: Node, i: nat, j: nat)
    requires i < j < |n.children| && n.children[i].name == n.children[j].name
    ensures !EmitsBase(n, j)
  {
    EmitsBaseFirst(n, j);
  }

  /** The attribute order's names come first, in that order, each with its value
      (empty when absent) unless the base element has the same value. */
  lemma {:induction false} OrderedPairsAre(n: Node, base: Option<Node>, k: nat)
    requires k <= |n.attrOrder|
    ensures forall key, value :: (key, value) in OrderedPairs(n, base, k) <==>
              (exists j :: 0 <= j < k && n.attrOrder[j] == key) && value == Attr(n.attrs, key)
              && !Skipped(base, key, value)
  {
    if k > 0 {
      OrderedPairsAre(n, base, k - 1);
      var prev := OrderedPairs(n, base, k - 1);
      var last := n.attrOrder[k - 1];
      var extra := if Skipped(base, last, Attr(n.attrs, last)) then [] else [(last, Attr(n.attrs, last))];
      assert OrderedPairs(n, base, k) == prev + extra;
      forall key, value | (key, value) in prev + extra
        ensures (exists j :: 0 <= j < k && n.attrOrder[j] == key) && value == Attr(n.attrs, key)
                && !Skipped(base, key, value)
      {
        if (key, value) in prev {
          var j :| 0 <= j < k - 1 && n.attrOrder[j] == key;
          assert 0 <= j < k;
        } else {
          assert (key, value) == (last, Attr(n.attrs, last));
          assert n.attrOrder[k - 1] == key;
        }
      }
      forall key, value | (exists j :: 0 <= j < k && n.attrOrder[j] == key) && value == Attr(n.attrs, key)
                          && !Skipped(base, key, value)
        ensures (key, value) in prev + extra
      {
        var j :| 0 <= j < k && n.attrOrder[j] == key;
        if j < k - 1 {
          assert (key, value) in prev;
        } else {
          assert key == last && (key, value) in extra;
        }
      }
    }
  }

  /** The other attributes follow, each written unless the attribute order names it or
      the base element has the same value. */
  lemma {:induction false} OtherPairsAre(n: Node, base: Option<Node>, k: nat)
    requires k <= |n.attrs|
    ensures forall a :: a in OtherPairs(n, base, k) <==>
              a in n.attrs[..k] && a.0 !in n.attrOrder && !Skipped(base, a.0, a.1)
  {
    if k > 0 {
      OtherPairsAre(n, base, k - 1);
      assert n.attrs[..k] == n.attrs[..k - 1] + [n.attrs[k - 1]];
    }
  }

  /** No attribute of the attribute order is written twice when the order has no
      repeats. */
  lemma {:induction false} OrderedPairsDistinct(n: Node, base: Option<Node>, k: nat)
    requires k <= |n.attrOrder|
    requires forall i, j :: 0 <= i < j < |n.attrOrder| ==> n.attrOrder[i] != n.attrOrder[j]
    ensures forall i, j :: 0 <= i < j < |OrderedPairs(n, base, k)| ==> OrderedPairs(n, base, k)[i].0 != OrderedPairs(n, base, k)[j].0
  {
    if k > 0 {
      OrderedPairsDistinct(n, base, k - 1);
      OrderedPairsAre(n, base, k - 1);
    }
  }

  lemma LinesSnoc(indent: string, pairs: seq<(string, string)>, a: (string, string))
    ensures Lines(indent, pairs + [a]) == Lines(indent, pairs) + AttrLine(indent, a)
  {
    assert (pairs + [a])[..|pairs|] == pairs;
  }

  /** One more name of the attribute order: its line, unless it is skipped. */
  lemma OrderedStep(n: Node, base: Option<Node>, k: nat, indent: string)
    requires k < |n.attrOrder|
    ensures var key := n.attrOrder[k];
      Lines(indent, OrderedPairs(n, base, k + 1))
      == Lines(indent, OrderedPairs(n, base, k))
         + (if Skipped(base, key, Attr(n.attrs, key)) then "" else AttrLine(indent, (key, Attr(n.attrs, key))))
  {
    var key := n.attrOrder[k];
    if !Skipped(base, key, Attr(n.attrs, key)) {
      LinesSnoc(indent, OrderedPairs(n, base, k), (key, Attr(n.attrs, key)));
    } else {
      assert OrderedPairs(n, base, k + 1) == OrderedPairs(n, base, k);
      assert Lines(indent, OrderedPairs(n, base, k)) + "" == Lines(indent, OrderedPairs(n, base, k));
    }
  }

  /** One more attribute: its line, unless the order names it or it is skipped. */
  lemma OtherStep(n: Node, base: Option<Node>, k: nat, indent: string)
    requires k < |n.attrs|
    ensures var a := n.attrs[k];
      Lines(indent, OtherPairs(n, base, k + 1))
      == Lines(indent, OtherPairs(n, base, k))
         + (if a.0 in n.attrOrder || Skipped(base, a.0, a.1) then "" else AttrLine(indent, a))
  {
    var a := n.attrs[k];
    if !(a.0 in n.attrOrder || Skipped(base, a.0, a.1)) {
      LinesSnoc(indent, OtherPairs(n, base, k), a);
    } else {
      assert OtherPairs(n, base, k + 1) == OtherPairs(n, base, k);
      assert Lines(indent, OtherPairs(n, base, k)) + "" == Lines(indent, OtherPairs(n, base, k));
    }
  }

  // ---------------------------------------------------------------- the writer

  /** The writer's state: the text written so far and the shared indent. */
  class Writer {
    var res: string
    var indent: string

    constructor ()
      ensures res == "" && indent == ""
    {
      res, indent := "", "";
    }

    /** The attribute-order loop. */
    method WriteOrdered(n: Node, base: Option<Node>)
      modifies this
      ensures res == old(res) + Lines(indent, OrderedPairs(n, base, |n.attrOrder|)) && indent == old(indent)
    {
      var lines := "";
      var k := 0;
      while k != |n.attrOrder|
        invariant 0 <= k <= |n.attrOrder| && res == old(res) && indent == old(indent)
        invariant lines == Lines(indent, OrderedPairs(n, base, k))
      {
        var key := n.attrOrder[k];
        var value := Attr(n.attrs, key);
        OrderedStep(n, base, k, indent);
        if !(base.Some? && Attr(base.value.attrs, key) == value) {
          lines := lines + AttrLine(indent, (key, value));
        }
        k := k + 1;
      }
      res := res + lines;
    }

    /** The loop over the remaining attributes. */
    method WriteOthers(n: Node, base: Option<Node>)
      modifies this
      ensures res == old(res) + Lines(indent, OtherPairs(n, base, |n.attrs|)) && indent == old(indent)
    {
      var lines := "";
      var k := 0;
      while k != |n.attrs|
        invariant 0 <= k <= |n.attrs| && res == old(res) && indent == old(indent)
        invariant lines == Lines(indent, OtherPairs(n, base, k))
      {
        var a := n.attrs[k];
        OtherStep(n, base, k, indent);
        if a.0 !in n.attrOrder && !(base.Some? && Attr(base.value.attrs, a.0) == a.1) {
          lines := lines + AttrLine(indent, a);
        }
        k := k + 1;
      }
      res := res + lines;
    }

    /** `write_xml(node, res, indent, base)`: appends the element's text at the current
        indent and leaves the indent as it found it. */
    method Write(n: Node, base: Option<Node>)
      modifies this
      ensures res == old(res) + Text(n, old(indent), base)
      ensures indent == old(indent)
      decreases n, 2
    {
      ghost var r0, ind := res, indent;
      var tagPrefix := if n.prefix != [] then n.prefix + ":" else "";
      res := res + (indent + "<" + tagPrefix + n.name + " ");
      ghost var r1 := res;
      WriteOrdered(n, base);
      AppendAssoc(r0, OpenTag(n, ind), Lines(ind, OrderedPairs(n, base, |n.attrOrder|)));
      ghost var h := OpenTag(n, ind) + Lines(ind, OrderedPairs(n, base, |n.attrOrder|));
      WriteOthers(n, base);
      AppendAssoc(r0, h, Lines(ind, OtherPairs(n, base, |n.attrs|)));
      h := h + Lines(ind, OtherPairs(n, base, |n.attrs|));
      res := res + ">\n";
      AppendAssoc(r0, h, ">\n");
      indent := indent + ['\t'];
      WriteChildren(n);
      AppendAssoc(r0, Head(n, ind, base), ChildrenText(n, ind + "\t", |n.children|));
      indent := indent[..|indent| - 1];
      assert indent == ind;
      res := res + CloseTag(n, indent);
      AppendAssoc(r0, Head(n, ind, base) + ChildrenText(n, ind + "\t", |n.children|), CloseTag(n, ind));
    }

    /** The children loop: each child's base element, the first time its name has one,
        then the child, written against that base. */
    method WriteChildren(n: Node)
      modifies this
      ensures res == old(res) + ChildrenText(n, indent, |n.children|) && indent == old(indent)
      decreases n, 1
    {
      var written: set<string> := {};
      var k := 0;
      while k != |n.children|
        invariant 0 <= k <= |n.children| && indent == old(indent)
        invariant written == BasedNames(n, k)
        invariant res == old(res) + ChildrenText(n, indent, k)
      {
        written := WriteChild(n, k, written);
        k := k + 1;
      }
    }

    /** One pass of the children loop; `written` holds the names whose base element is
        already out. */
    method WriteChild(n: Node, k: nat, written: set<string>) returns (written': set<string>)
      requires k < |n.children| && written == BasedNames(n, k)
      modifies this
      ensures res == old(res) + ChildText(n, indent, k) && indent == old(indent)
      ensures written' == BasedNames(n, k + 1)
      decreases n, 0
    {
      var c := n.children[k];
      var b := BaseIndex(n.bases, c.name);
      written' := written;
      ghost var r0 := res;
      ghost var baseText := if EmitsBase(n, k) then Text(n.bases[b].1, indent, None) else "";
      if b >= 0 && c.name !in written {
        written' := written + {c.name};
        Write(n.bases[b].1, None);
      } else {
        assert res == r0 + baseText;
      }
      ghost var r1 := res;
      Write(c, if b >= 0 then Some(n.bases[b].1) else None);
      AppendAssoc(r0, baseText, Text(c, indent, if b >= 0 then Some(n.bases[b].1) else None));
    }
  }

  lemma AppendAssoc(a: string, b: string, c: string)
    ensures (a + b) + c == a + (b + c)
  {
  }

  /** `output_xml`: a fresh writer with an empty indent. */
  method Output(n: Node) returns (s: string)
    ensures s == OutputXml(n)
  {
    var w := new Writer();
    w.Write(n, None);
    s := w.res;
  }
}
