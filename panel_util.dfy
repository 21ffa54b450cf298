/**
 * Helpers shared by the property panels: the typed-entry factories, the two
 * read-only projections of an element's extension container (first match by
 * type, and everything of another type), and the single writer that replaces
 * the whole container.
 */
module PanelUtil {
  import opened BpmnModel

  /** The namespaced type string `<prefix>:<suffix>`: the prefix, a colon, then the suffix. */
  function TypeName(prefix: string, suffix: string): (t: string)
    ensures |t| == |prefix| + 1 + |suffix|
    ensures t[..|prefix|] == prefix && t[|prefix|] == ':' && t[|prefix| + 1..] == suffix
  {
    prefix + ":" + suffix
  }

  /** A new `<prefix>:Property` entry holding the given name and value, unvalidated. */
  function CreateProperty(prefix: string, name: string, value: string): (p: Prop)
    ensures p.tag == TypeName(prefix, "Property")
    ensures p.name == name && p.value == value
  {
    Prop(TypeName(prefix, "Property"), name, value)
  }

  /** A new `<prefix>:Properties` group whose `values` are exactly `properties`. */
  function CreateProperties(prefix: string, properties: seq<Prop>): (g: Ext)
    ensures g.Group? && g.tag == TypeName(prefix, "Properties")
    ensures g.values == properties
  {
    Group(TypeName(prefix, "Properties"), properties)
  }

  /** Index `i` holds the first entry of `s` tagged `t`. */
  ghost predicate IsFirstOfType(s: seq<Ext>, t: string, i: int)
  {
    0 <= i < |s| && s[i].tag == t && forall j :: 0 <= j < i ==> s[j].tag != t
  }

  /** The index of the first entry tagged `t` (what `Array.prototype.find` would return). */
  function FirstOfType(s: seq<Ext>, t: string): (r: Option<nat>)
    ensures r.None? <==> forall i :: 0 <= i < |s| ==> s[i].tag != t
    ensures r.Some? ==> IsFirstOfType(s, t, r.value)
  {
    if |s| == 0 then None
    else if s[0].tag == t then Some(0)
    else match FirstOfType(s[1..], t)
      case None => None
      case Some(i) => Some(i + 1)
  }

  /** The `values` of an entry, or empty when the entry has none. */
  function ValuesOf(e: Ext): (r: seq<Prop>)
    ensures e.Group? ==> r == e.values
    ensures e.Opaque? ==> r == []
  {
    if e.Group? then e.values else []
  }

  /**
   * The `values` of the first container entry tagged `<prefix>:<suffix>`;
   * empty when the container is absent, when no entry has that tag, or when
   * the first such entry has no `values`.
   */
  function ExtractExtensionList(container: Option<seq<Ext>>, prefix: string, suffix: string): (r: seq<Prop>)
    ensures container.None? ==> r == []
    ensures container.Some? && (forall i :: 0 <= i < |container.value| ==> container.value[i].tag != TypeName(prefix, suffix))
            ==> r == []
    ensures container.Some? ==>
              forall i :: IsFirstOfType(container.value, TypeName(prefix, suffix), i) ==> r == ValuesOf(container.value[i])
  {
    match container
    case None => []
    case Some(entries) =>
      match FirstOfType(entries, TypeName(prefix, suffix))
      case None => []
      case Some(i) => ValuesOf(entries[i])
  }

  /** The entries of `s` whose tag differs from `t`, in their original order. */
  function WithoutType(s: seq<Ext>, t: string): (r: seq<Ext>)
    ensures |r| <= |s|
    ensures forall e :: e in r <==> e in s && e.tag != t
  {
    if |s| == 0 then []
    else
      assert s == [s[0]] + s[1..];
      if s[0].tag == t then WithoutType(s[1..], t) else [s[0]] + WithoutType(s[1..], t)
  }

  /**
   * Every container entry whose tag is not `<prefix>:<suffix>`, in order;
   * empty when the container is absent.
   */
  function ExtractOtherExtensionList(container: Option<seq<Ext>>, prefix: string, suffix: string): (r: seq<Ext>)
    ensures container.None? ==> r == []
    ensures container.Some? ==> |r| <= |container.value|
    ensures forall i :: 0 <= i < |r| ==> r[i].tag != TypeName(prefix, suffix)
    ensures forall e :: e in r <==> container.Some? && e in container.value && e.tag != TypeName(prefix, suffix)
  {
    match container
    case None => []
    case Some(entries) => WithoutType(entries, TypeName(prefix, suffix))
  }

  /** Replaces the selected element's whole extension container by `extensionList`. */
  method UpdateElementExtensions(element: BusinessObject, extensionList: seq<Ext>)
    modifies element`extensionElements
    ensures element.extensionElements == Some(extensionList)
  {
    element.extensionElements := Some(extensionList);
  }

  /** The number of entries of `s` tagged `t`. */
  function CountOfType(s: seq<Ext>, t: string): (n: nat)
    ensures n <= |s|
    ensures n == 0 <==> forall i :: 0 <= i < |s| ==> s[i].tag != t
  {
    if |s| == 0 then 0
    else (if s[0].tag == t then 1 else 0) + CountOfType(s[1..], t)
  }

  // ----- properties of the projections -----

  /** Filtering distributes over concatenation. */
  lemma {:induction false} WithoutTypeAppend(a: seq<Ext>, b: seq<Ext>, t: string)
    ensures WithoutType(a + b, t) == WithoutType(a, t) + WithoutType(b, t)
  {
    if |a| == 0 {
      assert a + b == b;
    } else {
      assert (a + b)[1..] == a[1..] + b;
      WithoutTypeAppend(a[1..], b, t);
    }
  }

  /** A sequence with no entry tagged `t` passes the filter unchanged. */
  lemma {:induction false} WithoutTypeKeepsAll(s: seq<Ext>, t: string)
    requires forall i :: 0 <= i < |s| ==> s[i].tag != t
    ensures WithoutType(s, t) == s
  {
    if |s| > 0 {
      WithoutTypeKeepsAll(s[1..], t);
    }
  }

  /**
   * Order is kept: an entry of another type at position `i` lands at the
   * position given by the number of kept entries before it.
   */
  lemma WithoutTypePosition(s: seq<Ext>, t: string, i: int)
    requires 0 <= i < |s| && s[i].tag != t
    ensures |WithoutType(s[..i], t)| < |WithoutType(s, t)|
    ensures WithoutType(s, t)[|WithoutType(s[..i], t)|] == s[i]
  {
    assert s == s[..i] + s[i..];
    WithoutTypeAppend(s[..i], s[i..], t);
    assert s[i..] == [s[i]] + s[i + 1..];
  }

  /** Kept entries come out in increasing order of their original positions. */
  lemma WithoutTypeMonotone(s: seq<Ext>, t: string, i: int, j: int)
    requires 0 <= i < j <= |s| && s[i].tag != t
    ensures |WithoutType(s[..i], t)| < |WithoutType(s[..j], t)|
  {
    assert s[..j] == s[..i] + s[i..j];
    WithoutTypeAppend(s[..i], s[i..j], t);
    assert s[i] in s[i..j];
  }

  /** Re-filtering the filter's own output returns it unchanged. */
  lemma ExtractOtherIdempotent(container: Option<seq<Ext>>, prefix: string, suffix: string)
    ensures var others := ExtractOtherExtensionList(container, prefix, suffix);
            ExtractOtherExtensionList(Some(others), prefix, suffix) == others
  {
    WithoutTypeKeepsAll(ExtractOtherExtensionList(container, prefix, suffix), TypeName(prefix, suffix));
  }

  /** Counting distributes over concatenation. */
  lemma {:induction false} CountOfTypeAppend(a: seq<Ext>, b: seq<Ext>, t: string)
    ensures CountOfType(a + b, t) == CountOfType(a, t) + CountOfType(b, t)
  {
    if |a| == 0 {
      assert a + b == b;
    } else {
      assert (a + b)[1..] == a[1..] + b;
      CountOfTypeAppend(a[1..], b, t);
    }
  }

  /**
   * `<prefix>:Property` and `<prefix>:Properties` are different types, so a
   * property entry stored directly in the container is one of the "other"
   * entries and survives every rewrite of the group.
   */
  lemma PropertyEntriesAreOthers(container: Option<seq<Ext>>, prefix: string, e: Ext)
    requires container.Some? && e in container.value
    requires e.tag == TypeName(prefix, "Property")
    ensures TypeName(prefix, "Property") != TypeName(prefix, "Properties")
    ensures e in ExtractOtherExtensionList(container, prefix, "Properties")
  {
    assert |TypeName(prefix, "Property")| != |TypeName(prefix, "Properties")|;
  }

  /**
   * Write-then-read round trip: writing `others ++ [group]`, where no entry of
   * `others` is a `<prefix>:Properties` entry, reads back the group's values
   * and exactly `others`.
   */
  lemma RoundTrip(prefix: string, others: seq<Ext>, properties: seq<Prop>)
    requires forall i :: 0 <= i < |others| ==> others[i].tag != TypeName(prefix, "Properties")
    ensures var container := Some(others + [CreateProperties(prefix, properties)]);
            && ExtractExtensionList(container, prefix, "Properties") == properties
            && ExtractOtherExtensionList(container, prefix, "Properties") == others
  {
    var t := TypeName(prefix, "Properties");
    var g := CreateProperties(prefix, properties);
    var s := others + [g];
    assert IsFirstOfType(s, t, |others|);
    WithoutTypeAppend(others, [g], t);
    WithoutTypeKeepsAll(others, t);
  }
}
