/**
 * The part of the W3C DOM the extension relies on, as values: an element has a name, a map of
 * attributes and a list of child nodes; every other kind of node is text. Then getClipPath: the
 * id named by an image's `clip-path` attribute and the first `clipPath` element carrying it.
 */
module Dom {
  import opened Wrappers
  import opened JavaLang

  datatype Node =
    | Element(name: string, attrs: map<string, string>, children: seq<Node>)
    | Text(data: string)

  /** Element.getAttribute: the value, or "" when the attribute is missing. */
  function GetAttribute(attrs: map<string, string>, key: string): string {
    if key in attrs then attrs[key] else ""
  }

  /** Document.getElementsByTagName: every element of the tree with that name, in document order. */
  function ElementsNamed(n: Node, tag: string): (r: seq<Node>)
    ensures forall k :: 0 <= k < |r| ==> r[k].Element? && r[k].name == tag
    decreases n
  {
    match n
    case Text(_) => []
    case Element(name, _, children) => (if name == tag then [n] else []) + ElementsNamedIn(children, tag)
  }

  function ElementsNamedIn(ns: seq<Node>, tag: string): (r: seq<Node>)
    ensures forall k :: 0 <= k < |r| ==> r[k].Element? && r[k].name == tag
    decreases ns
  {
    if ns == [] then [] else ElementsNamed(ns[0], tag) + ElementsNamedIn(ns[1..], tag)
  }

  // ---------------------------------------------------------------------------------------------
  // getClipPath

  /**
   * The id a `clip-path` value names: the text between the first `#` and the first `)` when the
   * value has both, else the whole value. A `)` before the `#` makes substring raise.
   */
  function ClipId(clip: string): (r: Checked<string>)
    ensures r.Err? <==> '#' in clip && ')' in clip && IndexOf(clip, ')') < IndexOf(clip, '#')
    ensures '#' !in clip || ')' !in clip ==> r == Ok(clip)
    ensures r.Ok? && '#' in clip && ')' in clip ==>
      clip == clip[..IndexOf(clip, '#') + 1] + r.value + clip[IndexOf(clip, ')')..] && ')' !in r.value
  {
    var a := IndexOf(clip, '#');
    var b := IndexOf(clip, ')');
    if a >= 0 && b >= 0 then Substring(clip, a + 1, b) else Ok(clip)
  }

  /** The first clip element whose `id` is `id`. */
  function FirstWithId(clips: seq<Node>, id: string): Option<Node>
    decreases |clips|
  {
    if clips == [] then None
    else if clips[0].Element? && GetAttribute(clips[0].attrs, "id") == id then Some(clips[0])
    else FirstWithId(clips[1..], id)
  }

  /** The search loop of getClipPath, which stops at the first element with the id. */
  method FindClip(clips: seq<Node>, id: string) returns (r: Option<Node>)
    requires forall k :: 0 <= k < |clips| ==> clips[k].Element?
    ensures r == FirstWithId(clips, id)
  {
    r := None;
    var i := 0;
    while i < |clips|
      invariant 0 <= i <= |clips|
      invariant FirstWithId(clips, id) == FirstWithId(clips[i..], id)
    {
      assert clips[i..][0] == clips[i] && clips[i..][1..] == clips[i + 1..];
      if GetAttribute(clips[i].attrs, "id") == id {
        r := Some(clips[i]);
        break;
      }
      i := i + 1;
    }
    if r.None? {
      assert clips[i..] == [];
    }
  }

  /**
   * getClipPath(img, dom): null (None) when the image has no `clip-path`, otherwise the first
   * `clipPath` element of the document whose id is the one the attribute names, or null.
   */
  method GetClipPath(imgAttrs: map<string, string>, root: Node) returns (r: Checked<Option<Node>>)
    ensures GetAttribute(imgAttrs, "clip-path") == "" ==> r == Ok(None)
    ensures GetAttribute(imgAttrs, "clip-path") != "" ==>
      r == match ClipId(GetAttribute(imgAttrs, "clip-path"))
           case Err(e) => Err(e)
           case Ok(id) => Ok(FirstWithId(ElementsNamed(root, "clipPath"), id))
  {
    var clip := GetAttribute(imgAttrs, "clip-path");
    if clip == "" {
      return Ok(None);
    }
    var id := ClipId(clip);
    if id.Err? {
      return Err(id.error);
    }
    var found := FindClip(ElementsNamed(root, "clipPath"), id.value);
    return Ok(found);
  }

  // ---------------------------------------------------------------------------------------------
  // Properties

  /** The element found carries the id, comes from the list, and no earlier element carries it. */
  lemma {:induction false} FirstWithIdFound(clips: seq<Node>, id: string)
    requires FirstWithId(clips, id).Some?
    ensures exists k :: (0 <= k < |clips| && clips[k] == FirstWithId(clips, id).value &&
      forall j :: 0 <= j < k ==> !(clips[j].Element? && GetAttribute(clips[j].attrs, "id") == id))
    ensures FirstWithId(clips, id).value.Element?
    ensures GetAttribute(FirstWithId(clips, id).value.attrs, "id") == id
    decreases |clips|
  {
    if !(clips[0].Element? && GetAttribute(clips[0].attrs, "id") == id) {
      FirstWithIdFound(clips[1..], id);
      var k :| 0 <= k < |clips[1..]| && clips[1..][k] == FirstWithId(clips[1..], id).value &&
        (forall j :: 0 <= j < k ==> !(clips[1..][j].Element? && GetAttribute(clips[1..][j].attrs, "id") == id));
      assert clips[k + 1] == clips[1..][k];
      forall j | 0 <= j < k + 1
        ensures !(clips[j].Element? && GetAttribute(clips[j].attrs, "id") == id)
      {
        if j > 0 {
          assert clips[j] == clips[1..][j - 1];
        }
      }
    } else {
      assert clips[0] == FirstWithId(clips, id).value;
    }
  }

  /** Nothing is found exactly when no element of the list carries the id. */
  lemma {:induction false} FirstWithIdNone(clips: seq<Node>, id: string)
    ensures FirstWithId(clips, id).None? <==>
      forall k :: 0 <= k < |clips| ==> !(clips[k].Element? && GetAttribute(clips[k].attrs, "id") == id)
    decreases |clips|
  {
    if clips != [] {
      FirstWithIdNone(clips[1..], id);
      if FirstWithId(clips, id).None? {
        forall k | 0 <= k < |clips|
          ensures !(clips[k].Element? && GetAttribute(clips[k].attrs, "id") == id)
        {
          if k > 0 {
            assert clips[k] == clips[1..][k - 1];
          }
        }
      } else if !(clips[0].Element? && GetAttribute(clips[0].attrs, "id") == id) {
        var k :| 0 <= k < |clips[1..]| && clips[1..][k].Element? && GetAttribute(clips[1..][k].attrs, "id") == id;
        assert clips[k + 1] == clips[1..][k];
      }
    }
  }

  /** url(#name) names `name`, whenever `name` has neither `#` nor `)` in it. */
  lemma ClipIdOfUrl(name: string)
    requires '#' !in name && ')' !in name
    ensures ClipId("url(#" + name + ")") == Ok(name)
  {
    var clip := "url(#" + name + ")";
    assert clip[4] == '#' && clip[|clip| - 1] == ')';
    forall k | 0 <= k < 4
      ensures clip[k] != '#' && clip[k] != ')'
    {
    }
    IndexOfIs(clip, '#', 4);
    forall k | 0 <= k < |clip| - 1
      ensures clip[k] != ')'
    {
      if k >= 5 {
        assert clip[k] == name[k - 5];
      }
    }
    IndexOfIs(clip, ')', |clip| - 1);
    assert clip[5..|clip| - 1] == name;
  }

  /** A value with no `#` or no `)` is taken whole as the id. */
  lemma ClipIdWhole(clip: string)
    requires '#' !in clip || ')' !in clip
    ensures ClipId(clip) == Ok(clip)
  {
  }

  /** A `)` ahead of the first `#` makes substring raise. */
  lemma ClipIdMisordered(clip: string)
    requires '#' in clip && ')' in clip && IndexOf(clip, ')') < IndexOf(clip, '#')
    ensures ClipId(clip).Err?
  {
  }
}
