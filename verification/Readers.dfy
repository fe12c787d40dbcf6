/**
 * What the readers of a document return, said of the tree alone: which nodes contribute
 * a file id or a mention, and which words the plain text has.
 */
module Readers {
  import opened Prelude
  import opened Strings
  import opened RichText
  import opened Documents

  // ----- nodes below a list -----

  /** Some node of the trees satisfies p. */
  ghost predicate Below(nodes: seq<Json>, p: Json -> bool) {
    exists i: nat, path :: i < |nodes| && At(nodes[i], path).Some? && p(At(nodes[i], path).value)
  }

  lemma BelowFirst(nodes: seq<Json>, p: Json -> bool, path: seq<nat>)
    requires nodes != [] && At(nodes[0], path).Some? && p(At(nodes[0], path).value)
    ensures p(nodes[0]) || (HasContent(nodes[0]) && Below(Children(nodes[0]), p))
  {
    if path != [] { assert At(Children(nodes[0])[path[0]], path[1..]).Some?; }
  }

  lemma BelowChild(nodes: seq<Json>, p: Json -> bool)
    requires nodes != [] && HasContent(nodes[0]) && Below(Children(nodes[0]), p)
    ensures Below(nodes, p)
  {
    var i: nat, path :| i < |Children(nodes[0])| && At(Children(nodes[0])[i], path).Some? && p(At(Children(nodes[0])[i], path).value);
    assert ([i] + path)[1..] == path;
    assert At(nodes[0], [i] + path) == At(Children(nodes[0])[i], path);
  }

  lemma BelowSplit(nodes: seq<Json>, p: Json -> bool)
    requires nodes != []
    ensures Below(nodes, p) <==> p(nodes[0]) || (HasContent(nodes[0]) && Below(Children(nodes[0]), p)) || Below(nodes[1..], p)
  {
    if Below(nodes, p) {
      var i: nat, path :| i < |nodes| && At(nodes[i], path).Some? && p(At(nodes[i], path).value);
      if i == 0 {
        BelowFirst(nodes, p, path);
      } else {
        assert nodes[1..][i - 1] == nodes[i];
      }
    }
    if p(nodes[0]) { assert At(nodes[0], []) == Some(nodes[0]); }
    if HasContent(nodes[0]) && Below(Children(nodes[0]), p) { BelowChild(nodes, p); }
    if Below(nodes[1..], p) {
      var i: nat, path :| i < |nodes[1..]| && At(nodes[1..][i], path).Some? && p(At(nodes[1..][i], path).value);
      assert nodes[i + 1] == nodes[1..][i];
    }
  }

  // ----- file ids and mentions -----

  /** A field of a decoded struct that is to be a string. */
  ghost predicate StringOrNull(fields: map<string, Json>, name: string) {
    name in fields ==> fields[name].Str? || fields[name].Null?
  }

  ghost predicate Names(fields: map<string, Json>, name: string, id: string) {
    id != "" && name in fields && fields[name].Str? && Trim(fields[name].s) == id
  }

  /** The node refers to the file: its attrs decode, and fileId or file.id is the id, spaces around it aside. */
  ghost predicate RefersTo(node: Json, id: string) {
    && node.Obj? && "attrs" in node.fields && node.fields["attrs"].Obj?
    && var attrs := node.fields["attrs"].fields;
    && StringOrNull(attrs, "fileId")
    && ("file" in attrs ==> attrs["file"].Null? || (attrs["file"].Obj? && StringOrNull(attrs["file"].fields, "id")))
    && (Names(attrs, "fileId", id) || ("file" in attrs && attrs["file"].Obj? && Names(attrs["file"].fields, "id", id)))
  }

  /** The node mentions the user. */
  ghost predicate Mentioning(node: Json, id: string) {
    && node.Obj? && "type" in node.fields && node.fields["type"] == Str("mention")
    && "attrs" in node.fields && node.fields["attrs"].Obj? && Names(node.fields["attrs"].fields, "id", id)
  }

  /** The node holds the string where a rewrite looks it up. */
  ghost predicate Stores(node: Json, id: string) {
    && node.Obj? && "attrs" in node.fields && node.fields["attrs"].Obj?
    && var attrs := node.fields["attrs"].fields;
    || ("fileId" in attrs && attrs["fileId"] == Str(id))
    || ("file" in attrs && attrs["file"].Obj? && "id" in attrs["file"].fields && attrs["file"].fields["id"] == Str(id))
  }

  lemma NodeReads(node: Json, id: string)
    ensures id in NodeFileIds(node) <==> RefersTo(node, id)
  {
    TrimEmpty();
  }

  lemma NodeMentionsExactly(node: Json, id: string)
    ensures id in NodeMentions(node) <==> Mentioning(node, id)
  {
    TrimEmpty();
  }

  lemma {:induction false} FileIdsExactly(nodes: seq<Json>, id: string)
    ensures id in FileIdsOf(nodes) <==> Below(nodes, n => RefersTo(n, id))
  {
    if nodes != [] {
      hide Below, RefersTo, NodeFileIds;
      BelowSplit(nodes, n => RefersTo(n, id));
      NodeReads(nodes[0], id);
      if HasContent(nodes[0]) { FileIdsExactly(Children(nodes[0]), id); }
      FileIdsExactly(nodes[1..], id);
    }
  }

  lemma {:induction false} MentionsExactly(nodes: seq<Json>, id: string)
    ensures id in MentionsOf(nodes) <==> Below(nodes, n => Mentioning(n, id))
  {
    if nodes != [] {
      hide Below, Mentioning, NodeMentions;
      BelowSplit(nodes, n => Mentioning(n, id));
      NodeMentionsExactly(nodes[0], id);
      if HasContent(nodes[0]) { MentionsExactly(Children(nodes[0]), id); }
      MentionsExactly(nodes[1..], id);
    }
  }

  lemma {:induction false} RawIdsExactly(nodes: seq<Json>, id: string)
    ensures id in RawIdsOf(nodes) <==> Below(nodes, n => Stores(n, id))
  {
    if nodes != [] {
      hide Below;
      BelowSplit(nodes, n => Stores(n, id));
      if HasContent(nodes[0]) { RawIdsExactly(Children(nodes[0]), id); }
      RawIdsExactly(nodes[1..], id);
    }
  }

  // ----- plain text -----

  function OwnText(node: Json): seq<string> {
    if node.Obj? && "text" in node.fields && node.fields["text"].Str? then [node.fields["text"].s] else []
  }

  /** The text fields of all nodes in document order. */
  function Texts(nodes: seq<Json>): seq<string> {
    if nodes == [] then [] else
      OwnText(nodes[0]) + (if HasContent(nodes[0]) then Texts(Children(nodes[0])) else []) + Texts(nodes[1..])
  }

  function WordsOfAll(texts: seq<string>): seq<string> {
    if texts == [] then [] else Words(texts[0]) + WordsOfAll(texts[1..])
  }

  lemma {:induction false} WordsOfAllAppend(a: seq<string>, b: seq<string>)
    ensures WordsOfAll(a + b) == WordsOfAll(a) + WordsOfAll(b)
  {
    if a == [] {
      assert a + b == b;
    } else {
      WordsOfAllAppend(a[1..], b);
      assert (a + b)[1..] == a[1..] + b;
    }
  }

  ghost predicate IsWord(s: string) { s != "" && forall i :: 0 <= i < |s| ==> !IsSpace(s[i]) }

  lemma {:induction false} WordsOfWord(s: string)
    requires IsWord(s)
    ensures Words(s) == [s]
  {
    assert [s[0]] + s[1..] == s;
    if |s| > 1 {
      WordsOfWord(s[1..]);
    } else {
      assert [s[0]] == s;
    }
  }

  lemma {:induction false} WordsOfBlank(s: string)
    requires Blank(s)
    ensures Words(s) == []
  {
    if s != "" { WordsOfBlank(s[1..]); }
  }

  /** A space always separates words. */
  lemma {:induction false} WordsSplit(a: string, space: char, b: string)
    requires IsSpace(space)
    ensures Words(a + [space] + b) == Words(a) + Words(b)
  {
    var s := a + [space] + b;
    if a == "" {
      assert s[1..] == b;
    } else {
      assert s[1..] == a[1..] + [space] + b;
      WordsSplit(a[1..], space, b);
      if !IsSpace(a[0]) && |a| > 1 && !IsSpace(a[1]) { HasFirstWord(a[1..]); }
    }
  }

  lemma {:induction false} HasFirstWord(s: string)
    requires s != "" && !IsSpace(s[0])
    ensures Words(s) != []
  {
  }

  lemma AppendTextWords(builder: string, text: string)
    ensures Words(AppendText(builder, text)) == Words(builder) + Words(text)
  {
    if text != "" && builder != "" { WordsSplit(builder, ' ', text); }
  }

  lemma AppendBreakWords(node: Json, builder: string)
    ensures Words(AppendBreak(node, builder)) == Words(builder)
  {
    assert builder + [' '] + "" == builder + " ";
    WordsSplit(builder, ' ', "");
  }

  lemma OwnWords(node: Json, builder: string)
    ensures Words(AppendText(builder, StringField(node, "text"))) == Words(builder) + WordsOfAll(OwnText(node))
  {
    AppendTextWords(builder, StringField(node, "text"));
    WordsOfBlank("");
    if OwnText(node) != [] { assert OwnText(node)[1..] == []; }
  }

  function Inner(node: Json): seq<string> { if HasContent(node) then Texts(Children(node)) else [] }

  lemma {:induction false} TextWords(nodes: seq<Json>, builder: string)
    ensures Words(TextOf(nodes, builder)) == Words(builder) + WordsOfAll(Texts(nodes))
    decreases nodes, 0
  {
    if nodes != [] {
      NodeWords(nodes[0], builder);
      TextWords(nodes[1..], TextOfNode(nodes[0], builder));
      WordsOfAllAppend(OwnText(nodes[0]) + Inner(nodes[0]), Texts(nodes[1..]));
      hide Words, OwnText, WordsOfAll, TextOfNode;
    }
  }

  lemma {:induction false} NodeWords(node: Json, builder: string)
    ensures Words(TextOfNode(node, builder)) == Words(builder) + WordsOfAll(OwnText(node) + Inner(node))
    decreases node, 1
  {
    hide Words, OwnText, WordsOfAll, TextOf, Texts, AppendText, AppendBreak, StringField, Children;
    var own := AppendText(builder, StringField(node, "text"));
    var inner := if HasContent(node) then TextOf(Children(node), own) else own;
    assert Words(inner) == Words(own) + WordsOfAll(Inner(node)) by {
      if HasContent(node) { TextWords(Children(node), own); } else { NoWords(); }
    }
    OwnWords(node, builder);
    WordsOfAllAppend(OwnText(node), Inner(node));
    AppendBreakWords(node, inner);
  }

  lemma NoWords()
    ensures WordsOfAll([]) == []
  {
  }

  function Total(words: seq<string>): nat { if words == [] then 0 else |words[0]| + Total(words[1..]) }

  /** Joining words puts one space between neighbours and none anywhere else. */
  lemma {:induction false} JoinExactly(words: seq<string>)
    requires forall w :: w in words ==> IsWord(w)
    ensures Words(Join(words)) == words
    ensures forall i :: 0 <= i < |Join(words)| && IsSpace(Join(words)[i]) ==> Join(words)[i] == ' '
    ensures words != [] ==> |Join(words)| == Total(words) + |words| - 1
  {
    if words != [] {
      WordsOfWord(words[0]);
      if |words| > 1 {
        JoinExactly(words[1..]);
        WordsSplit(words[0], ' ', Join(words[1..]));
      }
    }
  }

  lemma {:induction false} WordsAreWords(s: string)
    ensures forall w :: w in Words(s) ==> IsWord(w)
  {
    if s != "" {
      var rest := Words(s[1..]);
      WordsAreWords(s[1..]);
      if !IsSpace(s[0]) && |s| > 1 && !IsSpace(s[1]) {
        HasFirstWord(s[1..]);
        assert IsWord([s[0]] + rest[0]) by { assert rest[0] in rest; }
      }
    }
  }

  // ----- whole documents -----

  ghost predicate IsDoc(doc: Json) { doc.Obj? && "type" in doc.fields && doc.fields["type"] == Str("doc") }

  /** Some node strictly inside the document satisfies p. */
  ghost predicate Inside(doc: Json, p: Json -> bool) {
    exists path :: path != [] && At(doc, path).Some? && p(At(doc, path).value)
  }

  lemma InsideIsBelow(doc: Json, p: Json -> bool)
    ensures Inside(doc, p) <==> HasContent(doc) && Below(Children(doc), p)
  {
    if HasContent(doc) && Below(Children(doc), p) {
      var i: nat, path :| i < |Children(doc)| && At(Children(doc)[i], path).Some? && p(At(Children(doc)[i], path).value);
      assert ([i] + path)[1..] == path;
      assert At(doc, [i] + path) == At(Children(doc)[i], path);
    }
    if Inside(doc, p) {
      var path :| path != [] && At(doc, path).Some? && p(At(doc, path).value);
      assert At(Children(doc)[path[0]], path[1..]) == At(doc, path);
    }
  }

  /** FileIDs and Mentions: the ids some node inside a doc refers to, and the users some node mentions. */
  lemma ReadersExactly(doc: Json, id: string)
    ensures id in FileIDs(doc) <==> IsDoc(doc) && Inside(doc, n => RefersTo(n, id))
    ensures id in Mentions(doc) <==> IsDoc(doc) && Inside(doc, n => Mentioning(n, id))
  {
    InsideIsBelow(doc, n => RefersTo(n, id));
    InsideIsBelow(doc, n => Mentioning(n, id));
    hide RefersTo, Mentioning, Inside;
    if HasContent(doc) {
      FileIdsExactly(Children(doc), id);
      MentionsExactly(Children(doc), id);
    }
  }

  /** The words of the plain text are the words of the text fields in document order, one space apart. */
  lemma PlainTextExactly(doc: Json)
    ensures IsDoc(doc) && HasContent(doc) ==> Words(PlainText(doc)) == WordsOfAll(Texts(Children(doc)))
    ensures !(IsDoc(doc) && HasContent(doc)) ==> PlainText(doc) == ""
    ensures forall i :: 0 <= i < |PlainText(doc)| && IsSpace(PlainText(doc)[i]) ==> PlainText(doc)[i] == ' '
    ensures PlainText(doc) != "" ==> |PlainText(doc)| == Total(Words(PlainText(doc))) + |Words(PlainText(doc))| - 1
  {
    JoinExactly([]);
    hide IsSpace, WordsOfAll, Texts, TextOf, Total, Words, Join, IsWord;
    if IsDoc(doc) && HasContent(doc) {
      var words := Words(TextOf(Children(doc), ""));
      TextWords(Children(doc), "");
      WordsAreWords(TextOf(Children(doc), ""));
      JoinExactly(words);
    }
  }
}
