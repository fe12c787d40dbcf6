/** Whole documents: the exported operations of the rich-text package and their laws. */
module Documents {
  import opened Prelude
  import opened Strings
  import opened RichText
  import opened Normalize

  /** The public invariant of rich text: a doc with at most a content array, all nodes valid. */
  predicate Validate(net: Net, doc: Json) {
    && doc.Obj? && 1 <= |doc.fields| <= 2
    && (forall k :: k in doc.fields ==> k == "type" || k == "content")
    && StringField(doc, "type") == "doc"
    && ("content" in doc.fields ==> doc.fields["content"].Arr?)
    && NormalizeNode(net, doc).Ok?
  }

  /** The content list of a doc, or None where decoding the root struct fails. */
  function Content(doc: Json): Option<seq<Json>> {
    if !doc.Obj? || StructString(doc.fields, "type") != Some("doc") then None
    else if "content" !in doc.fields || doc.fields["content"].Null? then Some([])
    else if doc.fields["content"].Arr? then Some(doc.fields["content"].items) else None
  }

  function FileIDs(doc: Json): set<string> {
    match Content(doc) case Some(nodes) => FileIdsOf(nodes) case None => {}
  }

  function Mentions(doc: Json): set<string> {
    match Content(doc) case Some(nodes) => MentionsOf(nodes) case None => {}
  }

  /** strings.Fields: the maximal runs of non-space characters. */
  function Words(s: string): seq<string> {
    if s == "" then []
    else if IsSpace(s[0]) then Words(s[1..])
    else if |s| == 1 || IsSpace(s[1]) then [[s[0]]] + Words(s[1..])
    else
      var rest := Words(s[1..]);
      if rest == [] then [s] else [[s[0]] + rest[0]] + rest[1..]
  }

  function Join(words: seq<string>): string {
    if words == [] then "" else if |words| == 1 then words[0] else words[0] + " " + Join(words[1..])
  }

  function PlainText(doc: Json): string {
    match Content(doc) case Some(nodes) => Join(Words(TextOf(nodes, ""))) case None => ""
  }

  function ReplaceFileIDs(net: Net, doc: Json, m: map<string, string>): Result<Json, Invalid> {
    if Validate(net, doc) then Ok(Rename(doc, Subst(m))) else Err(InvalidDocument)
  }

  /** What ReplaceFileIDs accepts: a doc with at most a content array, every node of which is valid. */
  ghost predicate ValidDocument(net: Net, doc: Json) {
    && doc.Obj? && (forall k :: k in doc.fields ==> k == "type" || k == "content")
    && "type" in doc.fields && doc.fields["type"] == Str("doc")
    && ("content" in doc.fields ==> doc.fields["content"].Arr?)
    && ValidEverywhere(net, doc)
  }

  /** What it returns: the same tree, and at every node what a rewrite does to a node. */
  ghost predicate RewrittenTree(doc: Json, doc': Json, m: map<string, string>) {
    forall path ::
      && (At(doc', path).Some? <==> At(doc, path).Some?)
      && (At(doc, path).Some? ==> Rewritten(At(doc, path).value, At(doc', path).value, m))
  }

  lemma AtMostTwoFields(doc: Json)
    requires doc.Obj? && (forall k :: k in doc.fields ==> k == "type" || k == "content") && "type" in doc.fields
    ensures 1 <= |doc.fields| <= 2
  {
    var keys := doc.fields.Keys;
    assert |keys| == |doc.fields| && |keys - {"type"}| == |keys| - 1;
    if "content" in keys { assert keys - {"type"} == {"content"}; } else { assert keys - {"type"} == {}; }
  }

  lemma ValidatesExactly(net: Net, doc: Json)
    ensures Validate(net, doc) <==> ValidDocument(net, doc)
  {
    hide ValidEverywhere, NormalizeNode;
    if doc.Obj? { FailsExactlyOnInvalidNodes(net, doc); }
    if ValidDocument(net, doc) { AtMostTwoFields(doc); }
  }

  lemma ReplacesExactly(net: Net, doc: Json, m: map<string, string>)
    ensures ReplaceFileIDs(net, doc, m).Ok? <==> ValidDocument(net, doc)
    ensures ReplaceFileIDs(net, doc, m).Ok? ==> RewrittenTree(doc, ReplaceFileIDs(net, doc, m).value, m)
  {
    hide Validate, ValidDocument, Rewritten;
    ValidatesExactly(net, doc);
    forall path
      ensures At(Rename(doc, Subst(m)), path).Some? <==> At(doc, path).Some?
      ensures At(doc, path).Some? ==> Rewritten(At(doc, path).value, At(Rename(doc, Subst(m)), path).value, m)
    {
      RewrittenAt(doc, m, path);
    }
  }

  /** ReplaceFileIDs through the walk of the tree. */
  method ReplaceInDocument(net: Net, doc: Json, m: map<string, string>) returns (r: Result<Json, Invalid>)
    ensures r == ReplaceFileIDs(net, doc, m)
    ensures r.Ok? <==> ValidDocument(net, doc)
    ensures r.Ok? ==> RewrittenTree(doc, r.value, m)
  {
    ReplacesExactly(net, doc, m);
    hide ValidDocument, RewrittenTree;
    if !Validate(net, doc) { return Err(InvalidDocument); }
    var out := ReplaceInNode(doc, m);
    r := Ok(out);
  }

  lemma ValidRoot(net: Net, doc: Json, f: string -> string)
    requires Validate(net, doc)
    ensures Content(doc) == Some(Children(doc)) && RawIds(doc) == RawIdsOf(Children(doc))
    ensures Content(Rename(doc, f)) == Some(RenameAll(Children(doc), f))
  {
    RenameShape(doc, f);
    assert !HasAttrs(doc);
  }

  /** A rewritten document is still a valid document, so it can be rewritten again. */
  lemma ReplaceKeepsValid(net: Net, doc: Json, m: map<string, string>)
    requires Validate(net, doc)
    ensures Validate(net, Rename(doc, Subst(m)))
  {
    RenameShape(doc, Subst(m));
    RenameCommutes(net, doc, Subst(m));
    var doc' := Rename(doc, Subst(m));
    assert |doc'.fields| == |doc'.fields.Keys| == |doc.fields.Keys| == |doc.fields|;
    assert "type" in doc.fields ==> doc'.fields["type"] == doc.fields["type"];
  }

  /** Ids are non-empty and already trimmed, on both sides of the substitution. */
  ghost predicate CanonicalIds(ids: set<string>) { forall x :: x in ids ==> x != "" && Trim(x) == x }

  ghost predicate CanonicalMap(m: map<string, string>) { CanonicalIds(m.Keys) && CanonicalIds(m.Values) }

  lemma SubstKeepsCanonical(ids: set<string>, m: map<string, string>)
    requires CanonicalMap(m) && forall x :: x in ids ==> Trim(x) == x
    ensures KeepsCanonical(ids, Subst(m))
  {
    forall x | x in ids ensures Trim(Subst(m)(x)) == Subst(m)(x) && (x == "" <==> Subst(m)(x) == "") {
      if x in m { assert m[x] in m.Values; }
    }
  }

  /** What readers see after a rewrite: mapped file ids, the same text, the same mentions. */
  lemma ReadersAfterReplace(net: Net, doc: Json, m: map<string, string>)
    requires Validate(net, doc) && CanonicalMap(m) && forall x :: x in RawIds(doc) ==> Trim(x) == x
    ensures FileIDs(Rename(doc, Subst(m))) == Image(FileIDs(doc), Subst(m))
  {
    ValidRoot(net, doc, Subst(m));
    SubstKeepsCanonical(RawIds(doc), m);
    FileIdsRenamed(Children(doc), Subst(m));
  }

  lemma TextAndMentionsUnchanged(net: Net, doc: Json, m: map<string, string>)
    requires Validate(net, doc)
    ensures PlainText(Rename(doc, Subst(m))) == PlainText(doc)
    ensures Mentions(Rename(doc, Subst(m))) == Mentions(doc)
  {
    ValidRoot(net, doc, Subst(m));
    TextUnchanged(Children(doc), "", Subst(m));
    MentionsUnchanged(Children(doc), Subst(m));
  }

  ghost predicate Injective(m: map<string, string>) {
    forall a, b :: a in m && b in m && m[a] == m[b] ==> a == b
  }

  ghost function Inverse(m: map<string, string>): map<string, string> {
    map v | v in m.Values :: var k :| k in m && m[k] == v; k
  }

  lemma ThereAndBack(m: map<string, string>, x: string)
    requires Injective(m)
    ensures Then(Subst(m), Subst(Inverse(m)))(x) == x <==> (x in m.Values ==> x in m.Keys)
  {
    if x in m {
      assert m[x] in m.Values;
      assert Inverse(m)[m[x]] == x;
    } else if x in m.Values {
      assert Inverse(m)[x] in m;
    }
  }

  lemma RenameBackExactly(doc: Json, m: map<string, string>)
    requires Injective(m)
    ensures Rename(Rename(doc, Subst(m)), Subst(Inverse(m))) == doc <==> forall x :: x in RawIds(doc) && x in m.Values ==> x in m.Keys
  {
    var both := Then(Subst(m), Subst(Inverse(m)));
    RenameTwice(doc, Subst(m), Subst(Inverse(m)));
    RenameSame(doc);
    RenameAgree(doc, both, Same());
    forall x | x in RawIds(doc) ensures both(x) == Same()(x) <==> (x in m.Values ==> x in m.Keys) { ThereAndBack(m, x); }
  }

  /**
   * Undoing a rewrite by an injective mapping gives the document back exactly when no
   * target of the mapping was already stored in the document as an unmapped id.
   */
  lemma RoundTripExactly(net: Net, doc: Json, m: map<string, string>)
    requires Validate(net, doc) && Injective(m)
    ensures Validate(net, Rename(doc, Subst(m)))
    ensures ReplaceFileIDs(net, Rename(doc, Subst(m)), Inverse(m)) == Ok(doc)
       <==> forall x :: x in RawIds(doc) && x in m.Values ==> x in m.Keys
  {
    ReplaceKeepsValid(net, doc, m);
    RenameBackExactly(doc, m);
  }

  lemma RenameAgainExactly(doc: Json, m: map<string, string>)
    ensures Rename(Rename(doc, Subst(m)), Subst(m)) == Rename(doc, Subst(m))
       <==> forall x :: x in RawIds(doc) && x in m && m[x] in m ==> m[m[x]] == m[x]
  {
    var both := Then(Subst(m), Subst(m));
    RenameTwice(doc, Subst(m), Subst(m));
    RenameAgree(doc, both, Subst(m));
    forall x | x in RawIds(doc) ensures both(x) == Subst(m)(x) <==> (x in m && m[x] in m ==> m[m[x]] == m[x]) {}
  }

  /** Applying the same mapping twice equals applying it once exactly when no stored id is moved twice. */
  lemma ReplaceTwiceExactly(net: Net, doc: Json, m: map<string, string>)
    requires Validate(net, doc)
    ensures Validate(net, Rename(doc, Subst(m)))
    ensures ReplaceFileIDs(net, Rename(doc, Subst(m)), m) == Ok(Rename(doc, Subst(m)))
       <==> forall x :: x in RawIds(doc) && x in m && m[x] in m ==> m[m[x]] == m[x]
  {
    ReplaceKeepsValid(net, doc, m);
    RenameAgainExactly(doc, m);
  }

  /** A rewrite is the identity exactly when it moves no stored id. */
  lemma ReplaceIsIdentityExactly(net: Net, doc: Json, m: map<string, string>)
    requires Validate(net, doc)
    ensures ReplaceFileIDs(net, doc, m) == Ok(doc) <==> forall x :: x in RawIds(doc) && x in m ==> m[x] == x
  {
    RenameSame(doc);
    RenameAgree(doc, Subst(m), Same());
    forall x ensures Subst(m)(x) == Same()(x) <==> (x in m ==> m[x] == x) {}
  }

  // ----- a lesson: the same ids in a list and in a tree -----

  datatype Lesson = Lesson(fileIds: seq<string>, content: Json)

  function MappedIds(ids: seq<string>, m: map<string, string>): seq<string> {
    seq(|ids|, i requires 0 <= i < |ids| => Subst(m)(ids[i]))
  }

  predicate Touched(ids: seq<string>, m: map<string, string>) { exists id :: id in ids && id in m }

  /** One lesson of applyClonedFiles; an untouched lesson is skipped. */
  function RewriteLesson(net: Net, lesson: Lesson, m: map<string, string>): Result<Lesson, Invalid> {
    if !Touched(lesson.fileIds, m) then Ok(lesson) else
      match ReplaceFileIDs(net, lesson.content, m)
      case Ok(content) => Ok(Lesson(MappedIds(lesson.fileIds, m), content))
      case Err(e) => Err(e)
  }

  /** The in-place loop over the copied id slice. */
  method RewriteIds(ids: array<string>, m: map<string, string>) returns (changed: bool)
    modifies ids
    ensures ids[..] == MappedIds(old(ids[..]), m)
    ensures forall i :: 0 <= i < ids.Length ==> ids[i] == if old(ids[i]) in m then m[old(ids[i])] else old(ids[i])
    ensures changed <==> Touched(old(ids[..]), m)
    ensures changed <==> exists i :: 0 <= i < ids.Length && old(ids[i]) in m
  {
    changed := false;
    for i := 0 to ids.Length
      invariant forall k :: 0 <= k < i ==> ids[k] == Subst(m)(old(ids[..])[k])
      invariant forall k :: i <= k < ids.Length ==> ids[k] == old(ids[..])[k]
      invariant changed <==> exists k :: 0 <= k < i && old(ids[..])[k] in m
    {
      if ids[i] in m {
        ids[i] := m[ids[i]];
        changed := true;
      }
    }
    assert forall id :: id in old(ids[..]) <==> exists k :: 0 <= k < ids.Length && old(ids[..])[k] == id;
  }

  method RewriteOneLesson(net: Net, lesson: Lesson, m: map<string, string>) returns (r: Result<Lesson, Invalid>)
    ensures r == RewriteLesson(net, lesson, m)
    ensures (forall id :: id in lesson.fileIds ==> id !in m) ==> r == Ok(lesson)
    ensures (exists id :: id in lesson.fileIds && id in m) ==> (r.Ok? <==> ValidDocument(net, lesson.content))
    ensures r.Ok? ==> |r.value.fileIds| == |lesson.fileIds| && forall i :: 0 <= i < |lesson.fileIds| ==>
      r.value.fileIds[i] == if lesson.fileIds[i] in m then m[lesson.fileIds[i]] else lesson.fileIds[i]
    ensures r.Ok? && (exists id :: id in lesson.fileIds && id in m) ==> RewrittenTree(lesson.content, r.value.content, m)
  {
    var ids := new string[|lesson.fileIds|](i requires 0 <= i < |lesson.fileIds| => lesson.fileIds[i]);
    assert ids[..] == lesson.fileIds;
    hide ValidDocument, RewrittenTree, Validate;
    var changed := RewriteIds(ids, m);
    if !changed { return Ok(lesson); }
    var content := ReplaceInDocument(net, lesson.content, m);
    if content.Err? { return Err(content.error); }
    r := Ok(Lesson(ids[..], content.value));
  }

  function Elements(ids: seq<string>): set<string> { set id | id in ids }

  /** The list and the tree of a lesson name the same canonical files. */
  ghost predicate Agrees(net: Net, lesson: Lesson) {
    && Validate(net, lesson.content) && WellTyped(Children(lesson.content))
    && CanonicalIds(RawIds(lesson.content)) && Elements(lesson.fileIds) == FileIDs(lesson.content)
  }

  lemma AgreedIds(net: Net, lesson: Lesson)
    requires Agrees(net, lesson)
    ensures Elements(lesson.fileIds) == RawIds(lesson.content)
  {
    ValidRoot(net, lesson.content, Same());
    FileIdsAreRawIds(Children(lesson.content));
    assert "" !in RawIds(lesson.content);
  }

  lemma {:induction false} RenameKeepsWellTyped(nodes: seq<Json>, f: string -> string)
    ensures WellTyped(RenameAll(nodes, f)) <==> WellTyped(nodes)
  {
    if nodes != [] {
      RenameShape(nodes[0], f);
      if HasAttrs(nodes[0]) { StructRenamed(nodes[0], f); }
      if HasContent(nodes[0]) { RenameKeepsWellTyped(Children(nodes[0]), f); }
      RenameKeepsWellTyped(nodes[1..], f);
      assert RenameAll(nodes, f)[1..] == RenameAll(nodes[1..], f);
    }
  }

  lemma MappedElements(ids: seq<string>, m: map<string, string>)
    ensures Elements(MappedIds(ids, m)) == Image(Elements(ids), Subst(m))
  {
    var out := MappedIds(ids, m);
    forall y | y in Image(Elements(ids), Subst(m)) ensures y in Elements(out) {
      var x :| x in ids && y == Subst(m)(x);
      var i :| 0 <= i < |ids| && ids[i] == x;
      assert out[i] == y;
    }
  }

  /** Applying a clone mapping never fails on an agreeing lesson and keeps list and tree in agreement. */
  lemma CloneKeepsAgreement(net: Net, lesson: Lesson, m: map<string, string>)
    requires Agrees(net, lesson) && CanonicalMap(m)
    ensures RewriteLesson(net, lesson, m).Ok?
    ensures Agrees(net, RewriteLesson(net, lesson, m).value)
    ensures Elements(RewriteLesson(net, lesson, m).value.fileIds) == Image(Elements(lesson.fileIds), Subst(m))
  {
    var out := RewriteLesson(net, lesson, m).value;
    MappedElements(lesson.fileIds, m);
    if Touched(lesson.fileIds, m) {
      ReplaceKeepsValid(net, lesson.content, m);
      ReadersAfterReplace(net, lesson.content, m);
      ValidRoot(net, lesson.content, Subst(m));
      RenameShape(lesson.content, Subst(m));
      RenameKeepsWellTyped(Children(lesson.content), Subst(m));
      RenameRawIds(lesson.content, Subst(m));
      forall y | y in RawIds(out.content) ensures y != "" && Trim(y) == y {
        var x :| x in RawIds(lesson.content) && y == Subst(m)(x);
        if x in m { assert m[x] in m.Values; }
      }
    } else {
      assert Image(Elements(lesson.fileIds), Subst(m)) == Elements(lesson.fileIds);
    }
  }

  /** Skipping a lesson whose list is untouched skips nothing: its tree would not change either. */
  lemma SkipIsSound(net: Net, lesson: Lesson, m: map<string, string>)
    requires Agrees(net, lesson) && !Touched(lesson.fileIds, m)
    ensures ReplaceFileIDs(net, lesson.content, m) == Ok(lesson.content)
    ensures MappedIds(lesson.fileIds, m) == lesson.fileIds
  {
    AgreedIds(net, lesson);
    forall x | x in RawIds(lesson.content) ensures x !in m { assert x in Elements(lesson.fileIds); }
    ReplaceIsIdentityExactly(net, lesson.content, m);
  }

  /** A retried clone job that finds its work done changes nothing. */
  lemma CloneTwiceIsCloneOnce(net: Net, lesson: Lesson, m: map<string, string>)
    requires Agrees(net, lesson) && CanonicalMap(m) && m.Keys !! m.Values
    ensures RewriteLesson(net, lesson, m).Ok?
    ensures RewriteLesson(net, RewriteLesson(net, lesson, m).value, m) == RewriteLesson(net, lesson, m)
  {
    CloneKeepsAgreement(net, lesson, m);
    var out := RewriteLesson(net, lesson, m).value;
    forall id | id in out.fileIds ensures id !in m {
      assert id in Image(Elements(lesson.fileIds), Subst(m));
      var x :| x in Elements(lesson.fileIds) && id == Subst(m)(x);
      if x in m { assert m[x] in m.Values; }
    }
  }
}
