/**
 * TipTap documents as JSON trees, and the reading and rewriting of file ids in them.
 *
 * The decoded tree of a freshly parsed document has no sharing, so rewriting a map in
 * place is modelled as returning the rewritten node.
 */
module RichText {
  import opened Prelude
  import opened Strings

  datatype Json =
    | Null
    | Bool(b: bool)
    | Number(n: real)
    | Str(s: string)
    | Arr(items: seq<Json>)
    | Obj(fields: map<string, Json>)

  // ----- nodes -----

  predicate HasContent(node: Json) { node.Obj? && "content" in node.fields && node.fields["content"].Arr? }

  /** The children a walk visits: the items of a content array. */
  function Children(node: Json): (children: seq<Json>)
    ensures HasContent(node) ==> (node decreases to children)
  {
    if HasContent(node) then node.fields["content"].items else []
  }

  /** The node a path of child positions leads to. */
  function At(node: Json, path: seq<nat>): Option<Json>
    decreases |path|
  {
    if path == [] then Some(node)
    else if node.Obj? && "content" in node.fields && node.fields["content"].Arr? && path[0] < |node.fields["content"].items|
    then At(node.fields["content"].items[path[0]], path[1..]) else None
  }

  /** stringValue: the string a field holds, or "" for anything else. */
  function StringField(node: Json, name: string): string {
    if node.Obj? && name in node.fields && node.fields[name].Str? then node.fields[name].s else ""
  }

  /** A string field of a decoded struct: absent and null read as "", other kinds fail. */
  function StructString(fields: map<string, Json>, name: string): Option<string> {
    if name !in fields || fields[name].Null? then Some("")
    else if fields[name].Str? then Some(fields[name].s) else None
  }

  /** attrs.file.id through its nullable struct. */
  function FileStructId(attrs: map<string, Json>): Option<string> {
    if "file" !in attrs || attrs["file"].Null? then Some("")
    else if attrs["file"].Obj? then StructString(attrs["file"].fields, "id") else None
  }

  predicate HasAttrs(node: Json) { node.Obj? && "attrs" in node.fields && node.fields["attrs"].Obj? }

  function NonEmptyTrimmed(s: string): set<string> {
    if Trim(s) == "" then {} else {Trim(s)}
  }

  /** The ids one node contributes to FileIDs: none at all if its attrs do not decode. */
  function NodeFileIds(node: Json): set<string> {
    if !HasAttrs(node) then {} else
      var attrs := node.fields["attrs"].fields;
      match (StructString(attrs, "fileId"), FileStructId(attrs))
      case (Some(a), Some(b)) => NonEmptyTrimmed(a) + NonEmptyTrimmed(b)
      case _ => {}
  }

  function FileIdsOf(nodes: seq<Json>): set<string> {
    if nodes == [] then {} else
      NodeFileIds(nodes[0]) + (if HasContent(nodes[0]) then FileIdsOf(Children(nodes[0])) else {}) + FileIdsOf(nodes[1..])
  }

  /** The strings a rewrite looks at in one node, exactly as they are stored. */
  function NodeRawIds(node: Json): set<string> {
    if !HasAttrs(node) then {} else
      var attrs := node.fields["attrs"].fields;
      (if "fileId" in attrs && attrs["fileId"].Str? then {attrs["fileId"].s} else {})
      + (if "file" in attrs && attrs["file"].Obj? && "id" in attrs["file"].fields && attrs["file"].fields["id"].Str?
         then {attrs["file"].fields["id"].s} else {})
  }

  function RawIds(node: Json): set<string> {
    NodeRawIds(node) + if HasContent(node) then RawIdsOf(Children(node)) else {}
  }

  function RawIdsOf(nodes: seq<Json>): set<string> {
    if nodes == [] then {} else RawIds(nodes[0]) + RawIdsOf(nodes[1..])
  }

  // ----- rewriting -----

  function RenameStr(value: Json, f: string -> string): Json {
    if value.Str? then Str(f(value.s)) else value
  }

  function RenameFile(value: Json, f: string -> string): Json {
    if value.Obj? && "id" in value.fields then Obj(value.fields["id" := RenameStr(value.fields["id"], f)]) else value
  }

  /** The attrs value of a node: fileId and file.id change, every other key stays. */
  function RenameAttrs(value: Json, f: string -> string): Json {
    if !value.Obj? then value else
      Obj(map k | k in value.fields ::
        if k == "fileId" then RenameStr(value.fields[k], f)
        else if k == "file" then RenameFile(value.fields[k], f) else value.fields[k])
  }

  /** Every file id of the tree replaced by its image under f, all at once. */
  function Rename(node: Json, f: string -> string): Json {
    if !node.Obj? then node else
      Obj(map k | k in node.fields ::
        if k == "attrs" then RenameAttrs(node.fields[k], f)
        else if k == "content" && HasContent(node) then Arr(RenameAll(Children(node), f)) else node.fields[k])
  }

  function RenameAll(nodes: seq<Json>, f: string -> string): seq<Json> {
    if nodes == [] then [] else [Rename(nodes[0], f)] + RenameAll(nodes[1..], f)
  }

  /** A finite substitution as a total function. */
  function Subst(m: map<string, string>): string -> string {
    (x: string) => if x in m then m[x] else x
  }

  function Then(f: string -> string, g: string -> string): string -> string {
    (x: string) => g(f(x))
  }

  // ----- the algebra of rewriting -----

  lemma {:induction false} RenameAllAt(nodes: seq<Json>, f: string -> string)
    ensures |RenameAll(nodes, f)| == |nodes|
    ensures forall i :: 0 <= i < |nodes| ==> RenameAll(nodes, f)[i] == Rename(nodes[i], f)
  {
    if nodes != [] { RenameAllAt(nodes[1..], f); }
  }

  /** A rewrite keeps the shape: which fields there are and where the content is. */
  lemma RenameShape(node: Json, f: string -> string)
    ensures HasContent(Rename(node, f)) <==> HasContent(node)
    ensures Children(Rename(node, f)) == RenameAll(Children(node), f)
    ensures HasAttrs(Rename(node, f)) <==> HasAttrs(node)
    ensures node.Obj? ==> Rename(node, f).Obj? && Rename(node, f).fields.Keys == node.fields.Keys
    ensures node.Obj? ==> forall k :: k in node.fields && k != "attrs" && k != "content" ==> Rename(node, f).fields[k] == node.fields[k]
  {
  }

  lemma FileTwice(value: Json, f: string -> string, g: string -> string)
    ensures RenameFile(RenameFile(value, f), g) == RenameFile(value, Then(f, g))
  {
    if value.Obj? && "id" in value.fields {
      assert RenameFile(RenameFile(value, f), g).fields == RenameFile(value, Then(f, g)).fields;
    }
  }

  lemma AttrsTwice(value: Json, f: string -> string, g: string -> string)
    ensures RenameAttrs(RenameAttrs(value, f), g) == RenameAttrs(value, Then(f, g))
  {
    if value.Obj? {
      if "file" in value.fields { FileTwice(value.fields["file"], f, g); }
      assert RenameAttrs(RenameAttrs(value, f), g).fields == RenameAttrs(value, Then(f, g)).fields;
    }
  }

  /** Two rewrites in a row are the rewrite by the composition. */
  lemma {:induction false} RenameTwice(node: Json, f: string -> string, g: string -> string)
    ensures Rename(Rename(node, f), g) == Rename(node, Then(f, g))
    decreases node, 1
  {
    if node.Obj? {
      RenameShape(node, f);
      if "attrs" in node.fields { AttrsTwice(node.fields["attrs"], f, g); }
      if HasContent(node) { RenameAllTwice(Children(node), f, g); }
      assert Rename(Rename(node, f), g).fields == Rename(node, Then(f, g)).fields;
    }
  }

  lemma {:induction false} RenameAllTwice(nodes: seq<Json>, f: string -> string, g: string -> string)
    ensures RenameAll(RenameAll(nodes, f), g) == RenameAll(nodes, Then(f, g))
    decreases nodes, 0
  {
    if nodes != [] {
      RenameTwice(nodes[0], f, g);
      RenameAllTwice(nodes[1..], f, g);
    }
  }

  ghost predicate AgreeOn(ids: set<string>, f: string -> string, g: string -> string) {
    forall x :: x in ids ==> f(x) == g(x)
  }

  lemma FileAgree(value: Json, f: string -> string, g: string -> string)
    ensures RenameFile(value, f) == RenameFile(value, g)
       <==> (value.Obj? && "id" in value.fields && value.fields["id"].Str? ==> f(value.fields["id"].s) == g(value.fields["id"].s))
  {
    if value.Obj? && "id" in value.fields {
      assert RenameFile(value, f).fields["id"] == RenameStr(value.fields["id"], f);
      assert RenameFile(value, g).fields["id"] == RenameStr(value.fields["id"], g);
    }
  }

  lemma AttrsAgree(node: Json, f: string -> string, g: string -> string)
    requires HasAttrs(node)
    ensures RenameAttrs(node.fields["attrs"], f) == RenameAttrs(node.fields["attrs"], g) <==> AgreeOn(NodeRawIds(node), f, g)
  {
    var attrs := node.fields["attrs"].fields;
    var a, b := RenameAttrs(Obj(attrs), f).fields, RenameAttrs(Obj(attrs), g).fields;
    if "file" in attrs {
      FileAgree(attrs["file"], f, g);
      assert a["file"] == RenameFile(attrs["file"], f) && b["file"] == RenameFile(attrs["file"], g);
    }
    if "fileId" in attrs {
      assert a["fileId"] == RenameStr(attrs["fileId"], f) && b["fileId"] == RenameStr(attrs["fileId"], g);
    }
    if AgreeOn(NodeRawIds(node), f, g) { assert a == b; }
  }

  /** Two rewrites do the same to a tree exactly when they agree on the ids stored in it. */
  lemma {:induction false} RenameAgree(node: Json, f: string -> string, g: string -> string)
    ensures Rename(node, f) == Rename(node, g) <==> AgreeOn(RawIds(node), f, g)
    decreases node, 1
  {
    if node.Obj? {
      var a, b := Rename(node, f).fields, Rename(node, g).fields;
      if HasAttrs(node) {
        AttrsAgree(node, f, g);
        assert a["attrs"] == RenameAttrs(node.fields["attrs"], f) && b["attrs"] == RenameAttrs(node.fields["attrs"], g);
      }
      if HasContent(node) {
        RenameAllAgree(Children(node), f, g);
        assert a["content"] == Arr(RenameAll(Children(node), f)) && b["content"] == Arr(RenameAll(Children(node), g));
      }
      if AgreeOn(RawIds(node), f, g) { assert a == b; }
    }
  }

  lemma {:induction false} RenameAllAgree(nodes: seq<Json>, f: string -> string, g: string -> string)
    ensures RenameAll(nodes, f) == RenameAll(nodes, g) <==> AgreeOn(RawIdsOf(nodes), f, g)
    decreases nodes, 0
  {
    if nodes != [] {
      RenameAgree(nodes[0], f, g);
      RenameAllAgree(nodes[1..], f, g);
      assert RenameAll(nodes, f)[0] == Rename(nodes[0], f) && RenameAll(nodes, f)[1..] == RenameAll(nodes[1..], f);
      assert RenameAll(nodes, g)[0] == Rename(nodes[0], g) && RenameAll(nodes, g)[1..] == RenameAll(nodes[1..], g);
    }
  }

  function Same(): string -> string { (x: string) => x }

  lemma {:induction false} RenameSame(node: Json)
    ensures Rename(node, Same()) == node
    decreases node, 1
  {
    if node.Obj? {
      if HasAttrs(node) { AttrsSame(node.fields["attrs"]); }
      if HasContent(node) { RenameAllSame(Children(node)); }
      assert Rename(node, Same()).fields == node.fields;
    }
  }

  lemma AttrsSame(value: Json)
    ensures RenameAttrs(value, Same()) == value
  {
    if value.Obj? {
      if "file" in value.fields && value.fields["file"].Obj? && "id" in value.fields["file"].fields {
        assert RenameFile(value.fields["file"], Same()).fields == value.fields["file"].fields;
      }
      assert RenameAttrs(value, Same()).fields == value.fields;
    }
  }

  lemma {:induction false} RenameAllSame(nodes: seq<Json>)
    ensures RenameAll(nodes, Same()) == nodes
    decreases nodes, 0
  {
    if nodes != [] {
      RenameSame(nodes[0]);
      RenameAllSame(nodes[1..]);
    }
  }

  function Image(ids: set<string>, f: string -> string): set<string> { set x | x in ids :: f(x) }

  lemma RenameNodeRawIds(node: Json, f: string -> string)
    ensures NodeRawIds(Rename(node, f)) == Image(NodeRawIds(node), f)
  {
    RenameShape(node, f);
    if HasAttrs(node) {
      var attrs := node.fields["attrs"].fields;
      var attrs' := Rename(node, f).fields["attrs"].fields;
      assert attrs'.Keys == attrs.Keys;
      if "file" in attrs { assert attrs'["file"] == RenameFile(attrs["file"], f); }
      if "fileId" in attrs { assert attrs'["fileId"] == RenameStr(attrs["fileId"], f); }
    }
  }

  /** The stored ids of the result are the images of the stored ids. */
  lemma {:induction false} RenameRawIds(node: Json, f: string -> string)
    ensures RawIds(Rename(node, f)) == Image(RawIds(node), f)
    decreases node, 1
  {
    RenameShape(node, f);
    RenameNodeRawIds(node, f);
    if HasContent(node) { RenameAllRawIds(Children(node), f); }
  }

  lemma {:induction false} RenameAllRawIds(nodes: seq<Json>, f: string -> string)
    ensures RawIdsOf(RenameAll(nodes, f)) == Image(RawIdsOf(nodes), f)
    decreases nodes, 0
  {
    if nodes != [] {
      RenameRawIds(nodes[0], f);
      RenameAllRawIds(nodes[1..], f);
    }
  }

  /** An id after the rewrite by m. */
  function NewId(id: Json, m: map<string, string>): Json {
    if id.Str? && id.s in m then Str(m[id.s]) else id
  }

  /** The same keys, and the same values but for the keys in `except`. */
  ghost predicate SameBut(a: map<string, Json>, b: map<string, Json>, except: set<string>) {
    b.Keys == a.Keys && forall k :: k in a && k !in except ==> b[k] == a[k]
  }

  /** What a rewrite does to the attrs of one node: fileId and file.id get their images, nothing else changes. */
  ghost predicate RewrittenAttrs(attrs: map<string, Json>, attrs': map<string, Json>, m: map<string, string>) {
    && SameBut(attrs, attrs', {"fileId", "file"})
    && ("fileId" in attrs ==> attrs'["fileId"] == NewId(attrs["fileId"], m))
    && ("file" in attrs && attrs["file"].Obj? ==>
          && attrs'["file"].Obj? && SameBut(attrs["file"].fields, attrs'["file"].fields, {"id"})
          && ("id" in attrs["file"].fields ==> attrs'["file"].fields["id"] == NewId(attrs["file"].fields["id"], m)))
    && ("file" in attrs && !attrs["file"].Obj? ==> attrs'["file"] == attrs["file"])
  }

  /** What a rewrite does to one node, its children aside. */
  ghost predicate Rewritten(node: Json, node': Json, m: map<string, string>) {
    if !node.Obj? then node' == node else
      && node'.Obj? && SameBut(node.fields, node'.fields, {"attrs", "content"})
      && ("attrs" in node.fields && node.fields["attrs"].Obj? ==>
            node'.fields["attrs"].Obj? && RewrittenAttrs(node.fields["attrs"].fields, node'.fields["attrs"].fields, m))
      && ("attrs" in node.fields && !node.fields["attrs"].Obj? ==> node'.fields["attrs"] == node.fields["attrs"])
      && ("content" in node.fields && node.fields["content"].Arr? ==>
            node'.fields["content"].Arr? && |node'.fields["content"].items| == |node.fields["content"].items|)
      && ("content" in node.fields && !node.fields["content"].Arr? ==> node'.fields["content"] == node.fields["content"])
  }

  lemma AttrsRewritten(value: Json, m: map<string, string>)
    ensures value.Obj? ==> RenameAttrs(value, Subst(m)).Obj? && RewrittenAttrs(value.fields, RenameAttrs(value, Subst(m)).fields, m)
    ensures !value.Obj? ==> RenameAttrs(value, Subst(m)) == value
  {
    if value.Obj? {
      var attrs' := RenameAttrs(value, Subst(m)).fields;
      assert attrs'.Keys == value.fields.Keys;
      if "file" in value.fields { assert attrs'["file"] == RenameFile(value.fields["file"], Subst(m)); }
    }
  }

  lemma NodeRewritten(node: Json, m: map<string, string>)
    ensures Rewritten(node, Rename(node, Subst(m)), m)
  {
    hide RewrittenAttrs, RenameAttrs;
    if node.Obj? {
      RenameShape(node, Subst(m));
      if "attrs" in node.fields { AttrsRewritten(node.fields["attrs"], m); }
      RenameAllAt(Children(node), Subst(m));
    }
  }

  /** The rewrite, node by node: it visits every node of the tree and does to each what `Rewritten` says. */
  lemma {:induction false} RewrittenAt(node: Json, m: map<string, string>, path: seq<nat>)
    ensures At(Rename(node, Subst(m)), path).Some? <==> At(node, path).Some?
    ensures At(node, path).Some? ==> Rewritten(At(node, path).value, At(Rename(node, Subst(m)), path).value, m)
    decreases |path|
  {
    hide Rewritten;
    if path == [] {
      NodeRewritten(node, m);
    } else {
      RenameShape(node, Subst(m));
      RenameAllAt(Children(node), Subst(m));
      if HasContent(node) && path[0] < |Children(node)| { RewrittenAt(Children(node)[path[0]], m, path[1..]); }
    }
  }

  // ----- what readers see after a rewrite -----

  /** f sends the ids of a document to ids that FileIDs reads back unchanged. */
  ghost predicate KeepsCanonical(ids: set<string>, f: string -> string) {
    forall x :: x in ids ==> Trim(x) == x && Trim(f(x)) == f(x) && (x == "" <==> f(x) == "")
  }

  lemma RawIdsSplit(nodes: seq<Json>)
    requires nodes != []
    ensures RawIdsOf(nodes) == NodeRawIds(nodes[0]) + (if HasContent(nodes[0]) then RawIdsOf(Children(nodes[0])) else {}) + RawIdsOf(nodes[1..])
  {
  }

  lemma FileIdsSplit(nodes: seq<Json>)
    requires nodes != []
    ensures FileIdsOf(nodes) == NodeFileIds(nodes[0]) + (if HasContent(nodes[0]) then FileIdsOf(Children(nodes[0])) else {}) + FileIdsOf(nodes[1..])
  {
  }

  /** The ids one node contributes, once both of its struct fields are known. */
  lemma NodeFileIdsAre(node: Json, a: string, b: string)
    requires HasAttrs(node)
    requires StructString(node.fields["attrs"].fields, "fileId") == Some(a)
    requires FileStructId(node.fields["attrs"].fields) == Some(b)
    requires Trim(a) == a && Trim(b) == b
    ensures NodeFileIds(node) == {a, b} - {""}
  {
  }

  /** A struct field after a rewrite: decoding succeeds or fails as before. */
  lemma StructRenamed(node: Json, f: string -> string)
    requires HasAttrs(node)
    ensures
      var attrs, attrs' := node.fields["attrs"].fields, Rename(node, f).fields["attrs"].fields;
      && (StructString(attrs', "fileId").Some? <==> StructString(attrs, "fileId").Some?)
      && (FileStructId(attrs').Some? <==> FileStructId(attrs).Some?)
      && (StructString(attrs, "fileId").Some? ==>
            var x, x' := StructString(attrs, "fileId").value, StructString(attrs', "fileId").value;
            (x in NodeRawIds(node) && x' == f(x)) || x == x' == "")
      && (FileStructId(attrs).Some? ==>
            var x, x' := FileStructId(attrs).value, FileStructId(attrs').value;
            (x in NodeRawIds(node) && x' == f(x)) || x == x' == "")
  {
    var attrs := node.fields["attrs"].fields;
    var attrs' := Rename(node, f).fields["attrs"].fields;
    assert attrs'.Keys == attrs.Keys;
    if "file" in attrs { assert attrs'["file"] == RenameFile(attrs["file"], f); }
    if "fileId" in attrs { assert attrs'["fileId"] == RenameStr(attrs["fileId"], f); }
  }

  lemma NodeFileIdsRenamed(node: Json, f: string -> string)
    requires KeepsCanonical(NodeRawIds(node), f)
    ensures NodeFileIds(Rename(node, f)) == Image(NodeFileIds(node), f)
  {
    RenameShape(node, f);
    if HasAttrs(node) {
      StructRenamed(node, f);
      var attrs, attrs' := node.fields["attrs"].fields, Rename(node, f).fields["attrs"].fields;
      var a, b := StructString(attrs, "fileId"), FileStructId(attrs);
      if a.Some? && b.Some? {
        TrimEmpty();
        NodeFileIdsAre(node, a.value, b.value);
        NodeFileIdsAre(Rename(node, f), StructString(attrs', "fileId").value, FileStructId(attrs').value);
      }
    }
  }

  lemma TrimEmpty()
    ensures Trim("") == ""
  {
  }

  lemma ImageUnion(a: set<string>, b: set<string>, c: set<string>, f: string -> string)
    ensures Image(a + b + c, f) == Image(a, f) + Image(b, f) + Image(c, f)
  {
  }

  lemma KeepsCanonicalPart(ids: set<string>, part: set<string>, f: string -> string)
    requires KeepsCanonical(ids, f) && part <= ids
    ensures KeepsCanonical(part, f)
  {
  }

  /** FileIDs of the rewritten document is the image of FileIDs: a simultaneous substitution. */
  lemma {:induction false} FileIdsRenamed(nodes: seq<Json>, f: string -> string)
    requires KeepsCanonical(RawIdsOf(nodes), f)
    ensures FileIdsOf(RenameAll(nodes, f)) == Image(FileIdsOf(nodes), f)
  {
    if nodes != [] {
      var node, rest, ids := nodes[0], nodes[1..], RawIdsOf(nodes);
      RawIdsSplit(nodes);
      KeepsCanonicalPart(ids, NodeRawIds(node), f);
      KeepsCanonicalPart(ids, RawIdsOf(rest), f);
      var below := if HasContent(node) then FileIdsOf(Children(node)) else {};
      var below' := if HasContent(node) then FileIdsOf(RenameAll(Children(node), f)) else {};
      assert below' == Image(below, f) by {
        if HasContent(node) {
          KeepsCanonicalPart(ids, RawIdsOf(Children(node)), f);
          FileIdsRenamed(Children(node), f);
        }
      }
      calc {
        FileIdsOf(RenameAll(nodes, f));
        {
          FileIdsSplit(RenameAll(nodes, f));
          RenameShape(node, f);
          assert RenameAll(nodes, f)[1..] == RenameAll(rest, f);
        }
        NodeFileIds(Rename(node, f)) + below' + FileIdsOf(RenameAll(rest, f));
        { NodeFileIdsRenamed(node, f); FileIdsRenamed(rest, f); }
        Image(NodeFileIds(node), f) + Image(below, f) + Image(FileIdsOf(rest), f);
        { ImageUnion(NodeFileIds(node), below, FileIdsOf(rest), f); }
        Image(NodeFileIds(node) + below + FileIdsOf(rest), f);
        { FileIdsSplit(nodes); }
        Image(FileIdsOf(nodes), f);
      }
    }
  }

  /** Does every attrs object decode, so that FileIDs reads what a rewrite would touch? */
  predicate NodeWellTyped(node: Json) {
    HasAttrs(node) ==>
      StructString(node.fields["attrs"].fields, "fileId").Some? && FileStructId(node.fields["attrs"].fields).Some?
  }

  predicate WellTyped(nodes: seq<Json>) {
    nodes == [] ||
    (NodeWellTyped(nodes[0]) && (HasContent(nodes[0]) ==> WellTyped(Children(nodes[0]))) && WellTyped(nodes[1..]))
  }

  /** On well-typed documents with trimmed ids FileIDs misses nothing. */
  lemma {:induction false} FileIdsAreRawIds(nodes: seq<Json>)
    requires WellTyped(nodes) && forall x :: x in RawIdsOf(nodes) ==> Trim(x) == x
    ensures FileIdsOf(nodes) == RawIdsOf(nodes) - {""}
  {
    if nodes != [] {
      RawIdsSplit(nodes);
      FileIdsSplit(nodes);
      if HasContent(nodes[0]) { FileIdsAreRawIds(Children(nodes[0])); }
      FileIdsAreRawIds(nodes[1..]);
      NodeIdsAreRaw(nodes[0]);
    }
  }

  lemma NodeIdsAreRaw(node: Json)
    requires NodeWellTyped(node) && forall x :: x in NodeRawIds(node) ==> Trim(x) == x
    ensures NodeFileIds(node) == NodeRawIds(node) - {""}
  {
    if HasAttrs(node) {
      var attrs := node.fields["attrs"].fields;
      TrimEmpty();
      NodeFileIdsAre(node, StructString(attrs, "fileId").value, FileStructId(attrs).value);
    }
  }

  function NodeMentions(node: Json): set<string> {
    if StringField(node, "type") == "mention" && HasAttrs(node) then
      match StructString(node.fields["attrs"].fields, "id")
      case Some(id) => NonEmptyTrimmed(id)
      case None => {}
    else {}
  }

  function MentionsOf(nodes: seq<Json>): set<string> {
    if nodes == [] then {} else
      NodeMentions(nodes[0]) + (if HasContent(nodes[0]) then MentionsOf(Children(nodes[0])) else {}) + MentionsOf(nodes[1..])
  }

  lemma {:induction false} MentionsUnchanged(nodes: seq<Json>, f: string -> string)
    ensures MentionsOf(RenameAll(nodes, f)) == MentionsOf(nodes)
  {
    if nodes != [] {
      RenameShape(nodes[0], f);
      assert NodeMentions(Rename(nodes[0], f)) == NodeMentions(nodes[0]);
      if HasContent(nodes[0]) { MentionsUnchanged(Children(nodes[0]), f); }
      MentionsUnchanged(nodes[1..], f);
      assert RenameAll(nodes, f)[1..] == RenameAll(nodes[1..], f);
    }
  }

  function AppendText(builder: string, text: string): string {
    if text == "" then builder else if builder == "" then text else builder + " " + text
  }

  function AppendBreak(node: Json, builder: string): string {
    if StringField(node, "type") == "hardBreak" && builder != "" then builder + " " else builder
  }

  /** collectText for one node: its own text, its children, then a break. */
  function TextOfNode(node: Json, builder: string): string
    decreases node, 1
  {
    var own := AppendText(builder, StringField(node, "text"));
    AppendBreak(node, if HasContent(node) then TextOf(Children(node), own) else own)
  }

  function TextOf(nodes: seq<Json>, builder: string): string
    decreases nodes, 0
  {
    if nodes == [] then builder else TextOf(nodes[1..], TextOfNode(nodes[0], builder))
  }

  lemma {:induction false} TextUnchanged(nodes: seq<Json>, builder: string, f: string -> string)
    ensures TextOf(RenameAll(nodes, f), builder) == TextOf(nodes, builder)
    decreases nodes
  {
    if nodes != [] {
      RenameShape(nodes[0], f);
      var own := AppendText(builder, StringField(nodes[0], "text"));
      if HasContent(nodes[0]) { TextUnchanged(Children(nodes[0]), own, f); }
      TextUnchanged(nodes[1..], TextOfNode(nodes[0], builder), f);
      assert RenameAll(nodes, f)[1..] == RenameAll(nodes[1..], f);
    }
  }

  // ----- the walks as they are written -----

  method CollectFileIds(nodes: seq<Json>, seen: set<string>) returns (out: set<string>)
    ensures out == seen + FileIdsOf(nodes)
  {
    out := seen;
    for i := 0 to |nodes|
      invariant out + FileIdsOf(nodes[i..]) == seen + FileIdsOf(nodes)
    {
      var node := nodes[i];
      assert nodes[i..][1..] == nodes[i + 1..];
      if HasAttrs(node) {
        var attrs := node.fields["attrs"].fields;
        var fileId, inner := StructString(attrs, "fileId"), FileStructId(attrs);
        if fileId.Some? && inner.Some? {
          if Trim(fileId.value) != "" { out := out + {Trim(fileId.value)}; }
          if Trim(inner.value) != "" { out := out + {Trim(inner.value)}; }
        }
      }
      if HasContent(node) { out := CollectFileIds(Children(node), out); }
    }
  }

  method CollectMentions(nodes: seq<Json>, seen: set<string>) returns (out: set<string>)
    ensures out == seen + MentionsOf(nodes)
  {
    out := seen;
    for i := 0 to |nodes|
      invariant out + MentionsOf(nodes[i..]) == seen + MentionsOf(nodes)
    {
      var node := nodes[i];
      assert nodes[i..][1..] == nodes[i + 1..];
      if StringField(node, "type") == "mention" && HasAttrs(node) {
        var id := StructString(node.fields["attrs"].fields, "id");
        if id.Some? && Trim(id.value) != "" { out := out + {Trim(id.value)}; }
      }
      if HasContent(node) { out := CollectMentions(Children(node), out); }
    }
  }

  method CollectText(nodes: seq<Json>, builder: string) returns (out: string)
    ensures out == TextOf(nodes, builder)
    decreases nodes
  {
    out := builder;
    for i := 0 to |nodes|
      invariant TextOf(nodes[i..], out) == TextOf(nodes, builder)
    {
      var node := nodes[i];
      ghost var before := out;
      var text := StringField(node, "text");
      if text != "" {
        if out != "" { out := out + " "; }
        out := out + text;
      }
      assert out == AppendText(before, text);
      if HasContent(node) { out := CollectText(Children(node), out); }
      if StringField(node, "type") == "hardBreak" && out != "" { out := out + " "; }
      assert out == TextOfNode(node, before);
      assert nodes[i..][1..] == nodes[i + 1..];
    }
  }

  method ReplaceInAttrs(attrs: map<string, Json>, m: map<string, string>) returns (r: map<string, Json>)
    ensures Obj(r) == RenameAttrs(Obj(attrs), Subst(m))
  {
    r := attrs;
    if "fileId" in r && r["fileId"].Str? && r["fileId"].s in m {
      r := r["fileId" := Str(m[r["fileId"].s])];
    }
    if "file" in attrs && attrs["file"].Obj? && "id" in attrs["file"].fields {
      var file := attrs["file"].fields;
      if file["id"].Str? && file["id"].s in m {
        r := r["file" := Obj(file["id" := Str(m[file["id"].s])])];
      } else {
        assert file["id" := file["id"]] == file;
      }
    }
    assert r == RenameAttrs(Obj(attrs), Subst(m)).fields;
  }

  method ReplaceInContent(content: seq<Json>, m: map<string, string>) returns (out: seq<Json>)
    ensures out == RenameAll(content, Subst(m))
    decreases content, 0
  {
    out := [];
    for i := 0 to |content|
      invariant out + RenameAll(content[i..], Subst(m)) == RenameAll(content, Subst(m))
    {
      var child := content[i];
      if child.Obj? { child := ReplaceInNode(child, m); }
      assert content[i..][1..] == content[i + 1..];
      out := out + [child];
    }
  }

  /** replaceFileIDsInNode: each lookup uses the id as it was before the walk. */
  method ReplaceInNode(node: Json, m: map<string, string>) returns (r: Json)
    requires node.Obj?
    ensures r == Rename(node, Subst(m))
    decreases node, 1
  {
    var fields := node.fields;
    if HasAttrs(node) {
      var attrs := ReplaceInAttrs(node.fields["attrs"].fields, m);
      fields := fields["attrs" := Obj(attrs)];
    }
    if HasContent(node) {
      var content := ReplaceInContent(Children(node), m);
      fields := fields["content" := Arr(content)];
    }
    assert fields == Rename(node, Subst(m)).fields;
    r := Obj(fields);
  }
}
