/**
 * The parsed SVG document as the generator sees it through ElementTree: each
 * element has a tag (possibly qualified as `{namespace}name`), a map of
 * attributes and its children in document order.
 */
module Svg {
  import opened Text

  datatype Element = Element(tag: string, attrs: map<string, string>, children: seq<Element>)

  /** `element.get(key, default)`. */
  function Attr(e: Element, key: string, default: string): (v: string)
    ensures key in e.attrs ==> v == e.attrs[key]
    ensures key !in e.attrs ==> v == default
  {
    if key in e.attrs then e.attrs[key] else default
  }

  /** Whether `element.get(key) == value` (false when the attribute is absent). */
  predicate HasAttr(e: Element, key: string, value: string) {
    key in e.attrs && e.attrs[key] == value
  }

  /**
   * The tag without its namespace: what follows the last `}`, or the whole
   * tag when it holds none (`tag.split('}')[-1] if '}' in tag else tag`).
   */
  function LocalName(tag: string): (r: string)
    ensures |r| <= |tag| && r == tag[|tag| - |r|..]
    ensures '}' !in r
    ensures |r| < |tag| ==> tag[|tag| - |r| - 1] == '}'
  {
    if tag == [] then []
    else if tag[|tag| - 1] == '}' then []
    else LocalName(tag[..|tag| - 1]) + [tag[|tag| - 1]]
  }

  /** A tag written as `{namespace}name` has local name `name`. */
  lemma {:induction false} LocalNameOfQualified(ns: string, name: string)
    requires '}' !in name
    ensures LocalName("{" + ns + "}" + name) == name
  {
    if name != [] {
      var tag := "{" + ns + "}" + name;
      var shorter := name[..|name| - 1];
      assert tag[..|tag| - 1] == "{" + ns + "}" + shorter;
      LocalNameOfQualified(ns, shorter);
      assert name == shorter + [name[|name| - 1]];
    }
  }

  /** An unqualified tag is its own local name. */
  lemma {:induction false} LocalNameOfPlain(name: string)
    requires '}' !in name
    ensures LocalName(name) == name
  {
    if name != [] {
      var init, last := name[..|name| - 1], name[|name| - 1];
      assert last != '}' by {
        assert last in name;
      }
      assert '}' !in init by {
        assert forall c | c in init :: c in name;
      }
      LocalNameOfPlain(init);
      assert LocalName(name) == LocalName(init) + [last];
      assert name == init + [last];
    }
  }

  /** The shape tags the generator copies into the sprite. */
  const DrawableTags: set<string> := {"path", "rect", "circle", "ellipse", "line", "polyline", "polygon"}

  predicate IsDrawable(e: Element) {
    LocalName(e.tag) in DrawableTags
  }

  /** The exceptions that can escape the classifier and the normaliser. */
  datatype Fault =
    | NotANumber(attribute: string, text: string)  // float() of a rect coordinate raised ValueError
    | ZeroSizeViewBox                              // 24 / width or 24 / height raised ZeroDivisionError

  /** How Python prints a float (`str(x)`, also used by f-strings); not modelled, so a parameter. */
  type FloatText = real -> string
}
