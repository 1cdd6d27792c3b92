/** The tree-delta XML validator of `xml_parse.c`: a stack of frames
    driven by open-tag, close-tag and character-data events. Expat is
    replaced by the event sequence; the editor callbacks and the vcdiff
    parser are not part of this model. The stack is a sequence whose last
    element is the youngest frame. */
module TreeDelta {

  import opened Wrappers

  /** `svn_delta__XML_t`, in the order of the tag map. */
  datatype Tag = TreeDeltaTag | AddTag | DeleteTag | ReplaceTag | FileTag | DirTag
               | TextDeltaTag | PropDeltaTag | SetTag

  /** `svn_delta__tagmap`: the element name of each tag, by index. */
  const Tagmap: seq<string> :=
    ["tree-delta", "add", "delete", "replace", "file", "dir", "text-delta", "prop-delta", "set"]

  function Index(t: Tag): (i: nat)
    ensures i < |Tagmap|
  {
    match t
    case TreeDeltaTag => 0
    case AddTag => 1
    case DeleteTag => 2
    case ReplaceTag => 3
    case FileTag => 4
    case DirTag => 5
    case TextDeltaTag => 6
    case PropDeltaTag => 7
    case SetTag => 8
  }

  function TagAt(i: nat): (t: Tag)
    requires i < |Tagmap|
    ensures Index(t) == i
  {
    [TreeDeltaTag, AddTag, DeleteTag, ReplaceTag, FileTag, DirTag, TextDeltaTag, PropDeltaTag, SetTag][i]
  }

  function TagName(t: Tag): string {
    Tagmap[Index(t)]
  }

  // ---------------------------------------------------------------------
  // Errors and frames

  /** The errors the validator records. `Unexpected(name, closing)` is
      `xml_validation_error`: "got unexpected <name>" or, when `closing`,
      "got unexpected </name>". */
  datatype XmlError =
    | Unexpected(name: string, closing: bool)
    | NoNamespace
    | NoName
    | NonUniqueName(name: string)
    | NoContext

  /** The attributes the validator reads: `name`, `ancestor` and `ver`
      (the latter already converted to an integer). */
  datatype Attrs = Attrs(name: Option<string>, ancestor: Option<string>, ver: Option<int>)

  /** `svn_xml__stackframe_t`, without the editor batons. A tree-delta
      frame carries the set of entry names seen under it. */
  datatype Frame = Frame(
    tag: Tag,
    name: Option<string>,
    ancestorPath: Option<string>,
    ancestorVersion: int,
    namespace: Option<set<string>>)

  /** The validator's state: the frame stack and the recorded error. */
  datatype Digger = Digger(stack: seq<Frame>, validationError: Option<XmlError>)

  datatype Event =
    | StartTag(name: string, attrs: Attrs)
    | EndTag(name: string)
    | CharData(data: seq<char>)

  // ---------------------------------------------------------------------
  // set_tag_type

  /** The loop of `set_tag_type` from index `i` on. */
  function FindTag(name: string, i: nat): (r: Option<Tag>)
    requires i <= |Tagmap|
    decreases |Tagmap| - i
  {
    if i == |Tagmap| then None
    else if Tagmap[i] == name then Some(TagAt(i))
    else FindTag(name, i + 1)
  }

  /** `set_tag_type`: the tag of an element name; an unknown name is
      reported as an unexpected close tag, as the code does. */
  function SetTagType(name: string): (r: Result<Tag, XmlError>)
    ensures r.Err? ==> r.error == Unexpected(name, true)
  {
    match FindTag(name, 0)
    case Some(t) => Ok(t)
    case None => Err(Unexpected(name, true))
  }

  lemma {:induction false} FindTagFinds(name: string, i: nat)
    requires i <= |Tagmap|
    ensures FindTag(name, i).Some? <==> exists j :: i <= j < |Tagmap| && Tagmap[j] == name
    ensures FindTag(name, i).Some? ==> TagName(FindTag(name, i).value) == name
    decreases |Tagmap| - i
  {
    if i < |Tagmap| && Tagmap[i] != name {
      FindTagFinds(name, i + 1);
      assert (exists j :: i <= j < |Tagmap| && Tagmap[j] == name)
         ==> (exists j :: i + 1 <= j < |Tagmap| && Tagmap[j] == name);
    }
  }

  /** A name is recognised exactly when it is one of the nine names of the
      tag map, and the recognised tag is the one with that name. */
  lemma SetTagTypeRecognises(name: string)
    ensures SetTagType(name).Ok? <==> name in Tagmap
    ensures SetTagType(name).Ok? ==> TagName(SetTagType(name).value) == name
  {
    FindTagFinds(name, 0);
  }

  /** Different tags have different names, so comparing a close tag's
      name with the top frame's tag name is comparing tags. */
  lemma TagNamesDistinct(s: Tag, t: Tag)
    ensures TagName(s) == TagName(t) <==> s == t
  {
    if s != t {
      assert Index(s) != Index(t);
      var a, b := Tagmap[Index(s)], Tagmap[Index(t)];
      assert a[0] != b[0] || a[1] != b[1];
    }
  }

  // ---------------------------------------------------------------------
  // Nesting

  predicate HasAncestry(f: Frame) {
    f.ancestorPath.Some? || f.ancestorVersion >= 0
  }

  /** The else-if chain of `do_stack_append` for a non-empty stack whose
      youngest frame has tag `parent`: true when no test rejects `f`. The
      test meant for `<set>` repeats the `<text-delta>` test, so it never
      rejects anything the one before it let through. */
  predicate NestingAccepts(parent: Tag, f: Frame) {
    var t := f.tag;
    if t == TreeDeltaTag && parent != DirTag then false
    else if (t == AddTag || t == ReplaceTag) && parent != TreeDeltaTag then false
    else if t == DeleteTag && parent != TreeDeltaTag && parent != PropDeltaTag then false
    else if t == FileTag || t == DirTag then parent == AddTag || parent == ReplaceTag
    else if t == PropDeltaTag && parent != AddTag && parent != ReplaceTag
            && parent != FileTag && parent != DirTag then false
    else if t == TextDeltaTag && parent != FileTag then false
    else if t == TextDeltaTag && parent != FileTag then false
    else if HasAncestry(f) && t != FileTag && t != DirTag then false
    else true
  }

  /** The parents each element may have, as a table. */
  function AllowedParents(t: Tag): set<Tag> {
    match t
    case TreeDeltaTag => {DirTag}
    case AddTag => {TreeDeltaTag}
    case ReplaceTag => {TreeDeltaTag}
    case DeleteTag => {TreeDeltaTag, PropDeltaTag}
    case FileTag => {AddTag, ReplaceTag}
    case DirTag => {AddTag, ReplaceTag}
    case PropDeltaTag => {AddTag, ReplaceTag, FileTag, DirTag}
    case TextDeltaTag => {FileTag}
    case SetTag => {TreeDeltaTag, AddTag, DeleteTag, ReplaceTag, FileTag, DirTag,
                    TextDeltaTag, PropDeltaTag, SetTag}
  }

  /** The chain accepts a frame exactly when its parent is one the table
      allows and, unless it is a `<file>` or `<dir>`, it carries no
      ancestry. `<set>` may sit anywhere. */
  lemma NestingIsTheTable(parent: Tag, f: Frame)
    ensures NestingAccepts(parent, f)
            <==> parent in AllowedParents(f.tag)
                 && (HasAncestry(f) ==> f.tag == FileTag || f.tag == DirTag)
  {
  }

  // ---------------------------------------------------------------------
  // check_dirent_namespace

  /** `check_dirent_namespace`: an `<add>` or `<replace>` frame must carry
      a non-empty name that the youngest frame's namespace does not hold
      yet; the name is then added. The result is the youngest frame. */
  function CheckDirentNamespace(youngest: Frame, f: Frame): (r: Result<Frame, XmlError>)
    ensures f.tag != AddTag && f.tag != ReplaceTag ==> r == Ok(youngest)
    ensures (f.tag == AddTag || f.tag == ReplaceTag) ==>
              (r.Ok? <==> youngest.namespace.Some? && f.name.Some? && f.name.value != []
                          && f.name.value !in youngest.namespace.value)
    ensures r.Ok? && (f.tag == AddTag || f.tag == ReplaceTag) ==>
              r.value == youngest.(namespace := Some(youngest.namespace.value + {f.name.value}))
  {
    if f.tag != AddTag && f.tag != ReplaceTag then Ok(youngest)
    else if youngest.namespace.None? then Err(NoNamespace)
    else if f.name.None? || f.name.value == [] then Err(NoName)
    else if f.name.value in youngest.namespace.value then Err(NonUniqueName(f.name.value))
    else Ok(youngest.(namespace := Some(youngest.namespace.value + {f.name.value})))
  }

  // ---------------------------------------------------------------------
  // maybe_derive_ancestry

  /** `svn_path_add_component` in repository style: join with "/", no
      separator after an empty path; without a name the path is kept. */
  function AddComponent(path: string, name: Option<string>): (r: string)
    ensures name.None? ==> r == path
    ensures name.Some? ==> |r| >= |name.value| && r[|r| - |name.value|..] == name.value
  {
    match name
    case None => path
    case Some(n) => if path == [] then n else path + "/" + n
  }

  predicate NeedsAncestry(f: Frame) {
    (f.tag == DirTag || f.tag == FileTag) && !(f.ancestorPath.Some? && f.ancestorVersion >= 0)
  }

  /** The walk of `maybe_derive_ancestry` over the enclosing frames `ps`
      (the youngest last), with `thisName` the name already caught. */
  function Walk(f: Frame, ps: seq<Frame>, thisName: Option<string>): (r: Frame)
    ensures r == f.(ancestorPath := r.ancestorPath, ancestorVersion := r.ancestorVersion)
    decreases |ps|
  {
    if ps == [] then f
    else
      var p := ps[|ps| - 1];
      var nm := if thisName.None? && p.name.Some? then p.name else thisName;
      var f1 := if p.ancestorPath.Some? && f.ancestorPath.None?
                then f.(ancestorPath := Some(AddComponent(p.ancestorPath.value, nm)))
                else f;
      var f2 := if f1.ancestorVersion < 0 && p.ancestorVersion >= 0
                then f1.(ancestorVersion := p.ancestorVersion)
                else f1;
      if f2.ancestorVersion >= 0 && f2.ancestorPath.Some? then f2
      else Walk(f2, ps[..|ps| - 1], nm)
  }

  /** `maybe_derive_ancestry` for a frame pushed on top of `ps`. */
  function DeriveAncestry(f: Frame, ps: seq<Frame>): (r: Frame)
    ensures r == f.(ancestorPath := r.ancestorPath, ancestorVersion := r.ancestorVersion)
    ensures !NeedsAncestry(f) ==> r == f
  {
    if !NeedsAncestry(f) then f else Walk(f, ps, None)
  }

  /** The youngest enclosing version that is set, if any. */
  function NearestVersion(ps: seq<Frame>): (r: Option<int>)
    ensures r.Some? ==> r.value >= 0
    decreases |ps|
  {
    if ps == [] then None
    else if ps[|ps| - 1].ancestorVersion >= 0 then Some(ps[|ps| - 1].ancestorVersion)
    else NearestVersion(ps[..|ps| - 1])
  }

  /** The youngest enclosing name, if any. */
  function NearestName(ps: seq<Frame>): Option<string>
    decreases |ps|
  {
    if ps == [] then None
    else if ps[|ps| - 1].name.Some? then ps[|ps| - 1].name
    else NearestName(ps[..|ps| - 1])
  }

  /** The position of the youngest enclosing frame with an ancestor path. */
  function NearestPathAt(ps: seq<Frame>): (r: Option<nat>)
    ensures r.Some? ==> r.value < |ps| && ps[r.value].ancestorPath.Some?
    ensures r.Some? ==> forall k :: r.value < k < |ps| ==> ps[k].ancestorPath.None?
    ensures r.None? ==> forall k :: 0 <= k < |ps| ==> ps[k].ancestorPath.None?
    decreases |ps|
  {
    if ps == [] then None
    else if ps[|ps| - 1].ancestorPath.Some? then Some(|ps| - 1)
    else NearestPathAt(ps[..|ps| - 1])
  }

  function FirstOf(a: Option<string>, b: Option<string>): Option<string> {
    if a.Some? then a else b
  }

  /** The path the walk derives: the youngest enclosing ancestor path
      joined with the youngest name seen from there up to the frame. */
  function DerivedPath(ps: seq<Frame>, thisName: Option<string>): Option<string> {
    match NearestPathAt(ps)
    case None => None
    case Some(j) => Some(AddComponent(ps[j].ancestorPath.value, FirstOf(thisName, NearestName(ps[j..]))))
  }

  lemma NearestNameSnoc(ps: seq<Frame>, j: nat)
    requires j < |ps|
    ensures NearestName(ps[j..]) == if ps[|ps| - 1].name.Some? then ps[|ps| - 1].name
                                     else if j == |ps| - 1 then None
                                     else NearestName(ps[..|ps| - 1][j..])
  {
    assert ps[j..][..|ps[j..]| - 1] == ps[..|ps| - 1][j..];
  }

  lemma {:induction false} WalkDerives(f: Frame, ps: seq<Frame>, thisName: Option<string>)
    ensures var r := Walk(f, ps, thisName);
            && r.ancestorPath == (if f.ancestorPath.Some? then f.ancestorPath else DerivedPath(ps, thisName))
            && r.ancestorVersion == (if f.ancestorVersion >= 0 then f.ancestorVersion
                                     else match NearestVersion(ps)
                                          case Some(v) => v
                                          case None => f.ancestorVersion)
    decreases |ps|
  {
    if ps != [] {
      var p := ps[|ps| - 1];
      var rest := ps[..|ps| - 1];
      var nm := if thisName.None? && p.name.Some? then p.name else thisName;
      if p.ancestorPath.Some? {
        NearestNameSnoc(ps, |ps| - 1);
      } else {
        match NearestPathAt(rest)
        case None =>
        case Some(j) => NearestNameSnoc(ps, j);
      }
      var f1 := if p.ancestorPath.Some? && f.ancestorPath.None?
                then f.(ancestorPath := Some(AddComponent(p.ancestorPath.value, nm)))
                else f;
      var f2 := if f1.ancestorVersion < 0 && p.ancestorVersion >= 0
                then f1.(ancestorVersion := p.ancestorVersion)
                else f1;
      if !(f2.ancestorVersion >= 0 && f2.ancestorPath.Some?) {
        WalkDerives(f2, rest, nm);
      }
    }
  }

  /** `maybe_derive_ancestry` leaves every frame but an incomplete
      `<file>` or `<dir>` alone, never overwrites a value the frame has,
      takes the version from the youngest enclosing frame that has one,
      and the path from the youngest enclosing ancestor path joined with
      the youngest name at or below it. */
  lemma DeriveAncestryIsNearest(f: Frame, ps: seq<Frame>)
    ensures var r := DeriveAncestry(f, ps);
            && (!NeedsAncestry(f) ==> r == f)
            && (NeedsAncestry(f) ==>
                  && r.ancestorPath == (if f.ancestorPath.Some? then f.ancestorPath else DerivedPath(ps, None))
                  && r.ancestorVersion == (if f.ancestorVersion >= 0 then f.ancestorVersion
                                           else match NearestVersion(ps)
                                                case Some(v) => v
                                                case None => f.ancestorVersion))
  {
    if NeedsAncestry(f) {
      WalkDerives(f, ps, None);
    }
  }

  // ---------------------------------------------------------------------
  // The stack

  /** A fresh frame as `xml_handle_start` fills it: the version starts at
      -1 and a tree-delta gets an empty namespace. */
  function NewFrame(t: Tag, attrs: Attrs): (f: Frame)
    ensures f.tag == t && f.name == attrs.name && f.ancestorPath == attrs.ancestor
    ensures attrs.ver.None? ==> f.ancestorVersion == -1
    ensures f.namespace.Some? <==> t == TreeDeltaTag
    ensures f.namespace.Some? ==> f.namespace.value == {}
  {
    Frame(t, attrs.name, attrs.ancestor,
          if attrs.ver.Some? then attrs.ver.value else -1,
          if t == TreeDeltaTag then Some({}) else None)
  }

  /** `do_stack_append`: validate `f` against the youngest frame, record
      its entry name, push it and derive its ancestry. */
  function StackAppend(stack: seq<Frame>, f: Frame, tagname: string): (r: Result<seq<Frame>, XmlError>)
    ensures stack == [] ==> (r.Ok? <==> f.tag == TreeDeltaTag)
    ensures stack != [] ==>
              (r.Ok? <==> NestingAccepts(stack[|stack| - 1].tag, f)
                          && CheckDirentNamespace(stack[|stack| - 1], f).Ok?)
    ensures r.Ok? ==> |r.value| == |stack| + 1 && r.value[|stack|] == DeriveAncestry(f, r.value[..|stack|])
    ensures r.Ok? && stack != [] ==>
              && r.value[..|stack| - 1] == stack[..|stack| - 1]
              && r.value[|stack| - 1] == CheckDirentNamespace(stack[|stack| - 1], f).value
    ensures r.Err? && (stack == [] || !NestingAccepts(stack[|stack| - 1].tag, f)) ==>
              r.error == Unexpected(tagname, false)
  {
    if stack == [] then
      if f.tag != TreeDeltaTag then Err(Unexpected(tagname, false))
      else Ok([DeriveAncestry(f, [])])
    else
      var youngest := stack[|stack| - 1];
      if !NestingAccepts(youngest.tag, f) then Err(Unexpected(tagname, false))
      else match CheckDirentNamespace(youngest, f)
        case Err(e) => Err(e)
        case Ok(y) =>
          var below := stack[..|stack| - 1] + [y];
          Ok(below + [DeriveAncestry(f, below)])
  }

  /** `do_stack_check_remove`: a close tag must name the youngest frame. */
  function CheckRemove(stack: seq<Frame>, tagname: string): (r: Option<XmlError>)
    ensures r.None? <==> stack != [] && tagname == TagName(stack[|stack| - 1].tag)
    ensures r.Some? ==> r.value == Unexpected(tagname, true)
  {
    if stack == [] then Some(Unexpected(tagname, true))
    else if tagname != TagName(stack[|stack| - 1].tag) then Some(Unexpected(tagname, true))
    else None
  }

  /** `signal_expat_bailout`: record the error; the handlers are detached. */
  function Bailout(d: Digger, e: XmlError): (r: Digger)
    ensures r.validationError == Some(e) && r.stack == d.stack
  {
    d.(validationError := Some(e))
  }

  /** `xml_handle_start`. */
  function HandleStart(d: Digger, name: string, attrs: Attrs): (r: Digger)
    requires d.validationError.None?
    ensures r.validationError.None? ==>
              SetTagType(name).Ok? && |r.stack| == |d.stack| + 1 && r.stack[|d.stack|].tag == SetTagType(name).value
    ensures r.validationError.None? ==> r.stack[|d.stack|].name == attrs.name
    ensures r.validationError.None? && d.stack != [] ==> r.stack[..|d.stack| - 1] == d.stack[..|d.stack| - 1]
    ensures SetTagType(name).Err? ==> r.validationError == Some(Unexpected(name, true))
    ensures r.validationError.Some? ==> r.stack == d.stack
  {
    match SetTagType(name)
    case Err(e) => Bailout(d, e)
    case Ok(t) =>
      match StackAppend(d.stack, NewFrame(t, attrs), name)
      case Err(e) => Bailout(d, e)
      case Ok(s) => d.(stack := s)
  }

  /** `xml_handle_end`: check, then pop the youngest frame. */
  function HandleEnd(d: Digger, name: string): (r: Digger)
    requires d.validationError.None?
    ensures r.validationError.None? <==> d.stack != [] && name == TagName(d.stack[|d.stack| - 1].tag)
    ensures r.validationError.None? ==> r.stack == d.stack[..|d.stack| - 1]
    ensures r.validationError.Some? ==> r.stack == d.stack && r.validationError == Some(Unexpected(name, true))
  {
    match CheckRemove(d.stack, name)
    case Some(e) => Bailout(d, e)
    case None => d.(stack := d.stack[..|d.stack| - 1])
  }

  /** `xml_handle_data`: data outside any element is an error; inside
      one it goes to the vcdiff parser or the property value, which are
      not part of this model. */
  function HandleData(d: Digger): (r: Digger)
    requires d.validationError.None?
    ensures r.stack == d.stack
    ensures r.validationError.Some? <==> d.stack == []
  {
    if d.stack == [] then Bailout(d, NoContext) else d
  }

  /** One event; once an error is recorded the handlers are gone and the
      event has no effect. */
  function Step(d: Digger, e: Event): (r: Digger)
    ensures d.validationError.Some? ==> r == d
  {
    if d.validationError.Some? then d
    else match e
      case StartTag(name, attrs) => HandleStart(d, name, attrs)
      case EndTag(name) => HandleEnd(d, name)
      case CharData(_) => HandleData(d)
  }

  function Run(d: Digger, events: seq<Event>): (r: Digger)
    decreases |events|
  {
    if events == [] then d else Run(Step(d, events[0]), events[1..])
  }

  /** `svn_xml_parsebytes`' verdict on the whole stream: the recorded
      error if any. */
  function Parse(events: seq<Event>): (r: Result<seq<Frame>, XmlError>)
    ensures r.Ok? ==> WellNested(r.value)
  {
    RunKeepsWellNested(Digger([], None), events);
    var d := Run(Digger([], None), events);
    if d.validationError.Some? then Err(d.validationError.value) else Ok(d.stack)
  }

  // ---------------------------------------------------------------------
  // Properties

  /** Once an error is recorded, no later event changes anything. */
  lemma {:induction false} ErrorIsSticky(d: Digger, events: seq<Event>)
    requires d.validationError.Some?
    ensures Run(d, events) == d
    decreases |events|
  {
    if events != [] {
      ErrorIsSticky(Step(d, events[0]), events[1..]);
    }
  }

  lemma {:induction false} RunAppend(d: Digger, a: seq<Event>, b: seq<Event>)
    ensures Run(d, a + b) == Run(Run(d, a), b)
    decreases |a|
  {
    if a == [] {
      assert a + b == b;
    } else {
      assert (a + b)[0] == a[0] && (a + b)[1..] == a[1..] + b;
      RunAppend(Step(d, a[0]), a[1..], b);
    }
  }

  /** The parse reports the first error: whatever follows the event that
      caused it is ignored. */
  lemma FirstErrorWins(a: seq<Event>, b: seq<Event>)
    requires Run(Digger([], None), a).validationError.Some?
    ensures Parse(a + b) == Err(Run(Digger([], None), a).validationError.value)
  {
    RunAppend(Digger([], None), a, b);
    ErrorIsSticky(Run(Digger([], None), a), b);
  }

  /** On an empty stack only `<tree-delta>` may open. */
  lemma FirstFrameIsTreeDelta(name: string, attrs: Attrs)
    ensures HandleStart(Digger([], None), name, attrs).validationError.None? <==> name == "tree-delta"
  {
    SetTagTypeRecognises(name);
    if name == "tree-delta" {
      assert Tagmap[0] == name;
      TagNamesDistinct(SetTagType(name).value, TreeDeltaTag);
    } else if SetTagType(name).Ok? {
      TagNamesDistinct(SetTagType(name).value, TreeDeltaTag);
    }
  }

  /** Every frame of the stack sits under a parent the table allows, the
      oldest is a `<tree-delta>`, and exactly the tree-delta frames have a
      namespace. */
  ghost predicate WellNested(stack: seq<Frame>) {
    && (stack != [] ==> stack[0].tag == TreeDeltaTag)
    && (forall i :: 0 < i < |stack| ==> stack[i - 1].tag in AllowedParents(stack[i].tag))
    && (forall i :: 0 <= i < |stack| ==> (stack[i].namespace.Some? <==> stack[i].tag == TreeDeltaTag))
  }

  lemma StartKeepsWellNested(d: Digger, name: string, attrs: Attrs)
    requires d.validationError.None? && WellNested(d.stack)
    ensures WellNested(HandleStart(d, name, attrs).stack)
  {
    var r := HandleStart(d, name, attrs);
    if r.validationError.None? {
      var t := SetTagType(name).value;
      var f := NewFrame(t, attrs);
      var n := |d.stack|;
      if n > 0 {
        NestingIsTheTable(d.stack[n - 1].tag, f);
      }
      if n > 0 {
        assert r.stack[..n - 1] == d.stack[..n - 1];
      }
      forall i | 0 < i < |r.stack|
        ensures r.stack[i - 1].tag in AllowedParents(r.stack[i].tag)
      {
        if i < n - 1 {
          assert r.stack[i] == d.stack[..n - 1][i] && r.stack[i - 1] == d.stack[..n - 1][i - 1];
        } else if i == n - 1 {
          assert r.stack[i - 1] == d.stack[..n - 1][i - 1];
        }
      }
      forall i | 0 <= i < |r.stack|
        ensures r.stack[i].namespace.Some? <==> r.stack[i].tag == TreeDeltaTag
      {
        if i < n - 1 {
          assert r.stack[i] == d.stack[..n - 1][i];
        }
      }
    }
  }

  lemma EndKeepsWellNested(d: Digger, name: string)
    requires d.validationError.None? && WellNested(d.stack)
    ensures WellNested(HandleEnd(d, name).stack)
  {
  }

  /** The validator keeps the stack well nested throughout. */
  lemma {:induction false} RunKeepsWellNested(d: Digger, events: seq<Event>)
    requires WellNested(d.stack)
    ensures WellNested(Run(d, events).stack)
    decreases |events|
  {
    if events != [] {
      var d' := Step(d, events[0]);
      if d.validationError.None? {
        match events[0]
        case StartTag(name, attrs) => StartKeepsWellNested(d, name, attrs);
        case EndTag(name) => EndKeepsWellNested(d, name);
        case CharData(_) =>
      }
      RunKeepsWellNested(d', events[1..]);
    }
  }

  /** In a well-nested stack an `<add>` or `<replace>` that passes the
      nesting test always finds a namespace: the "no namespace" error of
      `check_dirent_namespace` cannot happen. */
  lemma NamespaceAlwaysPresent(stack: seq<Frame>, f: Frame)
    requires WellNested(stack) && stack != [] && NestingAccepts(stack[|stack| - 1].tag, f)
    ensures CheckDirentNamespace(stack[|stack| - 1], f) != Err(NoNamespace)
  {
  }

  /** After an `<add>` or `<replace>` named `n` opens, its parent
      tree-delta holds `n`, so a second entry of that name under the same
      tree-delta is refused. */
  lemma EntryNamesUnique(d: Digger, name: string, attrs: Attrs)
    requires d.validationError.None? && d.stack != []
    requires name == "add" || name == "replace"
    requires attrs.name.Some?
    ensures var r := HandleStart(d, name, attrs);
            r.validationError.None? ==>
              && r.stack[|d.stack| - 1].namespace.Some?
              && attrs.name.value in r.stack[|d.stack| - 1].namespace.value
              && HandleStart(r.(stack := r.stack[..|d.stack|]), name, attrs).validationError
                 == Some(NonUniqueName(attrs.name.value))
  {
    SetTagTypeRecognises(name);
    var r := HandleStart(d, name, attrs);
    if r.validationError.None? {
      var t := SetTagType(name).value;
      assert t == AddTag || t == ReplaceTag by {
        TagNamesDistinct(t, AddTag);
        TagNamesDistinct(t, ReplaceTag);
      }
      var n := |d.stack|;
      var s := r.stack[..n];
      assert s[n - 1].tag == TreeDeltaTag;
      assert s[..n - 1] == d.stack[..n - 1];
    }
  }

  /** A close tag that names the youngest frame pops exactly that frame;
      any other close tag is refused and leaves the stack alone. */
  lemma CloseTagPops(d: Digger, name: string)
    requires d.validationError.None? && d.stack != []
    ensures var r := HandleEnd(d, name);
            && (name == TagName(d.stack[|d.stack| - 1].tag) ==>
                  r == Digger(d.stack[..|d.stack| - 1], None))
            && (name != TagName(d.stack[|d.stack| - 1].tag) ==>
                  r == Digger(d.stack, Some(Unexpected(name, true))))
  {
  }

  /** Opening an element and closing it again gives back the stack,
      except that the parent's namespace may now hold the element's name;
      an element refused on opening leaves the refusal in place. */
  lemma OpenCloseRoundTrip(d: Digger, name: string, attrs: Attrs)
    requires d.validationError.None?
    ensures var r := Run(d, [StartTag(name, attrs), EndTag(name)]);
            var s := HandleStart(d, name, attrs);
            && (s.validationError.Some? ==> r == s)
            && (s.validationError.None? ==>
                  && r.validationError.None?
                  && |r.stack| == |d.stack|
                  && (d.stack != [] ==>
                        && r.stack[..|d.stack| - 1] == d.stack[..|d.stack| - 1]
                        && r.stack[|d.stack| - 1]
                           == CheckDirentNamespace(d.stack[|d.stack| - 1],
                                                   NewFrame(SetTagType(name).value, attrs)).value))
  {
    var evs := [StartTag(name, attrs), EndTag(name)];
    var s := HandleStart(d, name, attrs);
    assert evs[1..] == [EndTag(name)] && [EndTag(name)][1..] == [];
    assert Run(d, evs) == Run(s, [EndTag(name)]);
    if s.validationError.None? {
      var t := SetTagType(name).value;
      assert TagName(t) == name by { SetTagTypeRecognises(name); }
      assert s.stack[|s.stack| - 1].tag == t;
      var e := HandleEnd(s, name);
      assert Run(s, [EndTag(name)]) == e;
      assert e.validationError.None? && e.stack == s.stack[..|d.stack|];
      if d.stack != [] {
        var f := NewFrame(t, attrs);
        assert s.stack == StackAppend(d.stack, f, name).value;
      }
    }
  }

  /** A `<tree-delta>` opened and closed on an empty stack leaves it
      empty. */
  lemma TreeDeltaRoundTrip(attrs: Attrs)
    ensures Run(Digger([], None), [StartTag("tree-delta", attrs), EndTag("tree-delta")]) == Digger([], None)
  {
    FirstFrameIsTreeDelta("tree-delta", attrs);
    OpenCloseRoundTrip(Digger([], None), "tree-delta", attrs);
  }
}
