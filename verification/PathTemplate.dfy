/**
 * The contract checker of the frontend: template paths found in TypeScript calls are
 * normalised and matched against the operations of the OpenAPI document.
 */
module PathTemplate {
  import opened Prelude

  // ----- brace-balanced expressions -----

  function Depth(e: string): int {
    if e == "" then 0
    else Depth(e[..|e| - 1]) + (if e[|e| - 1] == '{' then 1 else if e[|e| - 1] == '}' then -1 else 0)
  }

  /** No prefix closes more braces than it opened, and all are closed at the end. */
  ghost predicate Balanced(e: string) {
    Depth(e) == 0 && forall k :: 0 <= k <= |e| ==> Depth(e[..k]) >= 0
  }

  /** The brace at `end` closes the expression that starts at `start`. */
  ghost predicate IsEnd(s: string, start: nat, end: int) {
    start <= end < |s| && s[end] == '}' && Balanced(s[start..end])
  }

  lemma EndIsUnique(s: string, start: nat, a: int, b: int)
    requires IsEnd(s, start, a) && IsEnd(s, start, b)
    ensures a == b
  {
    if a < b {
      EndIsFirst(s, start, a, b);
    } else if b < a {
      EndIsFirst(s, start, b, a);
    }
  }

  lemma EndIsFirst(s: string, start: nat, a: int, b: int)
    requires IsEnd(s, start, a) && a < b < |s|
    ensures !Balanced(s[start..b])
  {
    var e, n := s[start..b], a - start;
    var shorter := e[..n + 1];
    assert shorter == s[start..a + 1];
    assert shorter[..n] == s[start..a] && shorter[n] == s[a];
    assert Depth(shorter) == -1;
  }

  /** templateExpressionEnd: the index of the closing brace, or -1. */
  method TemplateExpressionEnd(raw: string, start: nat) returns (end: int)
    requires start <= |raw|
    ensures end == -1 || IsEnd(raw, start, end)
    ensures end == -1 ==> forall k :: !IsEnd(raw, start, k)
  {
    var depth := 1;
    var index := start;
    while index < |raw|
      invariant start <= index <= |raw| && depth == 1 + Depth(raw[start..index])
      invariant forall k :: start <= k <= index ==> Depth(raw[start..k]) >= 0
      invariant forall k :: start <= k < index ==> !IsEnd(raw, start, k)
    {
      assert raw[start..index + 1][..index - start] == raw[start..index];
      match raw[index] {
        case '{' => depth := depth + 1;
        case '}' =>
          depth := depth - 1;
          if depth == 0 {
            PrefixesBalanced(raw, start, index);
            return index;
          }
        case _ =>
      }
      index := index + 1;
    }
    end := -1;
  }

  lemma PrefixesBalanced(raw: string, start: nat, index: nat)
    requires start <= index <= |raw| && Depth(raw[start..index]) == 0
    requires forall k :: start <= k <= index ==> Depth(raw[start..k]) >= 0
    ensures Balanced(raw[start..index])
  {
    var e := raw[start..index];
    forall k | 0 <= k <= |e| ensures Depth(e[..k]) >= 0 { assert e[..k] == raw[start..start + k]; }
  }

  // ----- normalisation -----

  /** What an expression is replaced by. */
  function Mark(): string { "{param}" }

  predicate OpensAt(s: string, k: int) { 0 <= k && k + 1 < |s| && s[k] == '$' && s[k + 1] == '{' }

  /** The first "${" at or after `from`, or |s|. */
  function FirstOpening(s: string, from: nat): (r: nat)
    requires from <= |s|
    ensures from <= r <= |s| && (forall k :: from <= k < r ==> !OpensAt(s, k)) && (r < |s| ==> OpensAt(s, r))
    decreases |s| - from
  {
    if from == |s| || OpensAt(s, from) then from else FirstOpening(s, from + 1)
  }

  ghost function EndOf(s: string, start: nat): (end: int)
    ensures end == -1 || IsEnd(s, start, end)
    ensures end == -1 ==> forall k :: !IsEnd(s, start, k)
  {
    if exists k :: IsEnd(s, start, k) then var k :| IsEnd(s, start, k); k else -1
  }

  /**
   * What is written for the text s that follows the character `prev`: plain text as it is,
   * an expression after '/' as "{param}", and nothing from an expression glued to text or
   * never closed.
   */
  ghost function Expand(prev: char, s: string): string
    decreases |s|
  {
    var start := FirstOpening(s, 0);
    if start == |s| then s
    else if (if start > 0 then s[start - 1] else prev) != '/' then s[..start]
    else
      var end := EndOf(s, start + 2);
      if end < 0 then s[..start] else s[..start] + (Mark() + Expand('}', s[end + 1..]))
  }

  lemma ExpandStops(prev: char, s: string)
    requires var start := FirstOpening(s, 0);
      start < |s| ==> (if start > 0 then s[start - 1] else prev) != '/' || EndOf(s, start + 2) < 0
    ensures Expand(prev, s) == s[..FirstOpening(s, 0)]
  {
    assert s[..|s|] == s;
  }

  /** Concatenation by name, for proofs that need no more of it than its laws. */
  function Glue(a: string, b: string): string { a + b }

  lemma GlueLaws(a: string, b: string, c: string)
    ensures Glue(Glue(a, b), c) == Glue(a, Glue(b, c)) && Glue(a, "") == a && Glue("", a) == a
  {
  }

  lemma ExpandReplaces(prev: char, s: string, start: nat, end: nat)
    requires FirstOpening(s, 0) == start < |s| && (if start > 0 then s[start - 1] else prev) == '/' && EndOf(s, start + 2) == end < |s|
    ensures Expand(prev, s) == Glue(s[..start], Glue(Mark(), Expand('}', s[end + 1..])))
  {
    hide Mark, FirstOpening, EndOf, IsEnd;
  }

  function TrimRight(s: string): string {
    if s != "" && s[|s| - 1] == ' ' then TrimRight(s[..|s| - 1]) else s
  }

  ghost function PrevOf(raw: string, cursor: nat): char
    requires cursor <= |raw|
  {
    if cursor == 0 then '/' else raw[cursor - 1]
  }

  /** normalizeTemplateExpressions: the cursor moves past each expression. */
  method NormalizeTemplateExpressions(raw: string) returns (result: string)
    ensures result == TrimRight(Expand('/', raw))
  {
    hide Expand, IsEnd, EndOf, FirstOpening, TrimRight, Mark, Left, Tail, Glue;
    result := "";
    var cursor := 0;
    FromTheStart(raw);
    while cursor < |raw|
      invariant 0 <= cursor <= |raw| && Glue(result, Left(raw, cursor)) == Expand('/', raw)
      decreases |raw| - cursor
    {
      var start := FirstOpening(raw, cursor);
      LeftIs(raw, cursor);
      GlueLaws(result, raw[cursor..start], Tail(raw, start));
      TailStops(raw, start);
      result := Glue(result, raw[cursor..start]);
      GlueLaws(result, "", "");
      if start == |raw| || (start > 0 && raw[start - 1] != '/') { return TrimRight(result); }
      var end := TemplateExpressionEnd(raw, start + 2);
      EndFound(raw, start + 2, end);
      if end < 0 { return TrimRight(result); }
      TailReplaces(raw, start);
      GlueLaws(result, Mark(), Left(raw, end + 1));
      result := Glue(result, Mark());
      cursor := end + 1;
    }
    NothingLeft(raw);
    GlueLaws(result, "", "");
    result := TrimRight(result);
  }

  /** What the text from the cursor on is still to contribute. */
  ghost function Left(raw: string, cursor: nat): string
    requires cursor <= |raw|
  {
    Expand(PrevOf(raw, cursor), raw[cursor..])
  }

  /** What is contributed from the first opening on. */
  ghost function Tail(raw: string, start: nat): string
    requires start <= |raw|
  {
    var end := EndOf(raw, start + 2);
    if start == |raw| || PrevOf(raw, start) != '/' || end < 0 then "" else Glue(Mark(), Left(raw, end + 1))
  }

  lemma TailStops(raw: string, start: nat)
    requires start <= |raw|
    ensures start == |raw| || PrevOf(raw, start) != '/' || EndOf(raw, start + 2) < 0 ==> Tail(raw, start) == ""
  {
  }

  lemma TailReplaces(raw: string, start: nat)
    requires start < |raw| && PrevOf(raw, start) == '/' && EndOf(raw, start + 2) >= 0
    ensures EndOf(raw, start + 2) < |raw| && Tail(raw, start) == Glue(Mark(), Left(raw, EndOf(raw, start + 2) + 1))
  {
  }

  lemma FromTheStart(raw: string)
    ensures Left(raw, 0) == Expand('/', raw) && Glue("", Left(raw, 0)) == Expand('/', raw)
  {
    assert raw[0..] == raw;
  }

  lemma NothingLeft(raw: string)
    ensures Left(raw, |raw|) == ""
  {
    NoTemplate(PrevOf(raw, |raw|), "");
  }

  lemma EndFound(s: string, start: nat, end: int)
    requires end == -1 || IsEnd(s, start, end)
    requires end == -1 ==> forall k :: !IsEnd(s, start, k)
    ensures EndOf(s, start) == end && (end == -1 || (start <= end < |s| && s[end] == '}'))
  {
    if end >= 0 { EndIsUnique(s, start, end, EndOf(s, start)); }
  }

  /** A suffix and the whole text agree on where the first opening is and what precedes and closes it. */
  lemma SuffixRound(raw: string, cursor: nat)
    requires cursor <= |raw|
    ensures
      var s, start := raw[cursor..], FirstOpening(raw, cursor);
      var end := EndOf(raw, start + 2);
      && FirstOpening(s, 0) == start - cursor && s[..start - cursor] == raw[cursor..start]
      && (start < |raw| ==>
            && (if start > cursor then s[start - cursor - 1] else PrevOf(raw, cursor)) == PrevOf(raw, start)
            && EndOf(s, start - cursor + 2) == if end < 0 then -1 else end - cursor)
      && (end >= 0 ==> start + 2 <= end < |raw| && raw[end] == '}' && s[end - cursor + 1..] == raw[end + 1..])
  {
    hide *;
    var start := FirstOpening(raw, cursor);
    SuffixOpening(raw, cursor);
    EndBounds(raw, start + 2);
    TakeOfDrop(raw, cursor, start);
    if start < |raw| {
      SuffixEnd(raw, cursor, start - cursor + 2);
      assert cursor + (start - cursor + 2) == start + 2;
      PrevInSuffix(raw, cursor, start);
    }
    if EndOf(raw, start + 2) >= 0 { DropOfDrop(raw, cursor, EndOf(raw, start + 2) + 1); }
  }

  lemma TakeOfDrop(raw: string, a: nat, b: nat)
    requires a <= b <= |raw|
    ensures raw[a..][..b - a] == raw[a..b]
  {
  }

  lemma DropOfDrop(raw: string, a: nat, b: nat)
    requires a <= b <= |raw|
    ensures raw[a..][b - a..] == raw[b..]
  {
  }

  lemma PrevInSuffix(raw: string, cursor: nat, start: nat)
    requires cursor <= start <= |raw|
    ensures (if start > cursor then raw[cursor..][start - cursor - 1] else PrevOf(raw, cursor)) == PrevOf(raw, start)
  {
  }

  lemma LeftStops(raw: string, cursor: nat, start: nat)
    requires cursor <= |raw| && start == FirstOpening(raw, cursor)
    requires start == |raw| || PrevOf(raw, start) != '/' || EndOf(raw, start + 2) < 0
    ensures Left(raw, cursor) == raw[cursor..start]
  {
    SuffixRound(raw, cursor);
    hide Expand, FirstOpening, EndOf, IsEnd, OpensAt;
    ExpandStops(PrevOf(raw, cursor), raw[cursor..]);
  }

  lemma LeftDefined(raw: string, cursor: nat)
    requires cursor <= |raw|
    ensures Left(raw, cursor) == Expand(PrevOf(raw, cursor), raw[cursor..])
  {
  }

  lemma LeftAfterBrace(raw: string, end: nat)
    requires end < |raw| && raw[end] == '}'
    ensures Left(raw, end + 1) == Expand('}', raw[end + 1..])
  {
  }

  lemma LeftReplaces(raw: string, cursor: nat, start: nat, end: nat)
    requires cursor <= |raw| && start == FirstOpening(raw, cursor) < |raw|
    requires PrevOf(raw, start) == '/' && EndOf(raw, start + 2) == end
    ensures end < |raw| && Left(raw, cursor) == Glue(raw[cursor..start], Glue(Mark(), Left(raw, end + 1)))
  {
    hide *;
    SuffixRound(raw, cursor);
    ExpandReplaces(PrevOf(raw, cursor), raw[cursor..], start - cursor, end - cursor);
    LeftAfterBrace(raw, end);
    LeftDefined(raw, cursor);
  }

  /** One round of the expansion, in terms of positions in the whole text. */
  lemma LeftIs(raw: string, cursor: nat)
    requires cursor <= |raw|
    ensures Left(raw, cursor) == Glue(raw[cursor..FirstOpening(raw, cursor)], Tail(raw, FirstOpening(raw, cursor)))
  {
    hide *;
    var start := FirstOpening(raw, cursor);
    var end := EndOf(raw, start + 2);
    var head := raw[cursor..start];
    TailStops(raw, start);
    if start == |raw| || PrevOf(raw, start) != '/' || end < 0 {
      LeftStops(raw, cursor, start);
      GlueLaws(head, "", "");
    } else {
      LeftReplaces(raw, cursor, start, end);
      TailReplaces(raw, start);
    }
  }

  lemma EndBounds(s: string, start: nat)
    ensures EndOf(s, start) == -1 || (start <= EndOf(s, start) < |s| && s[EndOf(s, start)] == '}')
  {
  }

  /** The first opening is determined by what it is. */
  lemma OpeningIs(s: string, from: nat, r: nat)
    requires from <= r <= |s| && (forall k :: from <= k < r ==> !OpensAt(s, k)) && (r < |s| ==> OpensAt(s, r))
    ensures FirstOpening(s, from) == r
  {
    var a := FirstOpening(s, from);
    assert a < |s| ==> OpensAt(s, a);
  }

  lemma SuffixOpening(raw: string, cursor: nat)
    requires cursor <= |raw|
    ensures FirstOpening(raw[cursor..], 0) == FirstOpening(raw, cursor) - cursor
  {
    var s := raw[cursor..];
    assert forall k :: 0 <= k < |s| ==> (OpensAt(s, k) <==> OpensAt(raw, k + cursor));
    OpeningIs(s, 0, FirstOpening(raw, cursor) - cursor);
  }

  lemma SuffixEnd(raw: string, cursor: nat, start: nat)
    requires cursor <= |raw|
    ensures EndOf(raw[cursor..], start) == if EndOf(raw, cursor + start) < 0 then -1 else EndOf(raw, cursor + start) - cursor
  {
    var s := raw[cursor..];
    forall k ensures IsEnd(s, start, k) <==> IsEnd(raw, cursor + start, k + cursor) {
      if start <= k < |s| { assert s[start..k] == raw[cursor + start..cursor + k]; }
    }
    var a, b := EndOf(s, start), EndOf(raw, cursor + start);
    assert b >= 0 ==> IsEnd(s, start, b - cursor);
    if a >= 0 {
      assert IsEnd(raw, cursor + start, a + cursor);
      EndIsUnique(raw, cursor + start, a + cursor, b);
    }
  }

  /** Text before the first opening is copied. */
  lemma PrefixCopied(raw: string, n: nat)
    requires n <= |raw| && FirstOpening(raw, 0) == FirstOpening(raw, n)
    ensures Expand('/', raw) == Glue(raw[..n], Left(raw, n))
  {
    hide Expand, FirstOpening, Left, Tail;
    var start := FirstOpening(raw, n);
    LeftIs(raw, n);
    LeftIs(raw, 0);
    FromTheStart(raw);
    assert raw[0..start] == Glue(raw[..n], raw[n..start]);
    hide Glue;
    GlueLaws(raw[..n], raw[n..start], Tail(raw, start));
  }

  lemma PlainHasNoOpening(p: string, s: string)
    requires p != "" && (forall k :: !OpensAt(p, k)) && !(p[|p| - 1] == '$' && s != "" && s[0] == '{')
    ensures FirstOpening(p + s, 0) == FirstOpening(p + s, |p|) > 0
  {
    var raw := p + s;
    forall k | 0 <= k < |p| ensures !OpensAt(raw, k) {
      if k + 1 < |p| { assert !OpensAt(p, k); }
    }
    OpeningIs(raw, 0, FirstOpening(raw, |p|));
  }

  /** Plain text is copied. */
  lemma PlainCopied(prev: char, p: string, s: string)
    requires p != "" && (forall k :: !OpensAt(p, k)) && !(p[|p| - 1] == '$' && s != "" && s[0] == '{')
    ensures Expand(prev, p + s) == p + Expand(p[|p| - 1], s)
  {
    hide Expand, FirstOpening, OpensAt;
    var raw := p + s;
    assert raw[..|p|] == p && raw[|p|..] == s;
    PlainHasNoOpening(p, s);
    PrefixCopied(raw, |p|);
    PrevIrrelevant(raw, prev, '/');
  }

  /** What precedes the text matters only to an expression at its very start. */
  lemma PrevIrrelevant(s: string, a: char, b: char)
    requires FirstOpening(s, 0) > 0 || s == ""
    ensures Expand(a, s) == Expand(b, s)
  {
  }

  lemma LeadingReplaced(raw: string, end: nat)
    requires OpensAt(raw, 0) && IsEnd(raw, 2, end)
    ensures Expand('/', raw) == Mark() + Expand('}', raw[end + 1..])
  {
    EndIsUnique(raw, 2, end, EndOf(raw, 2));
    hide IsEnd, OpensAt, Expand, EndOf, Mark;
    OpeningIs(raw, 0, 0);
    ExpandReplaces('/', raw, 0, end);
    assert raw[..0] == "";
    GlueLaws(Glue(Mark(), Expand('}', raw[end + 1..])), "", "");
  }

  /** A balanced expression after '/' becomes "{param}". */
  lemma ExpressionReplaced(e: string, s: string)
    requires Balanced(e)
    ensures Expand('/', "${" + e + "}" + s) == Mark() + Expand('}', s)
    ensures s == "" ==> Expand('/', "${" + e + "}") == Mark() + Expand('}', "")
  {
    hide Expand, Mark, Balanced;
    var raw := "${" + e + "}" + s;
    var end := 2 + |e|;
    assert raw[2..end] == e && raw[end] == '}' && raw[end + 1..] == s;
    LeadingReplaced(raw, end);
    assert s == "" ==> raw == "${" + e + "}";
  }

  // ----- paths -----

  datatype Segment = Literal(text: string) | Param(name: string)

  function Join(parts: seq<string>): string
    requires parts != []
  {
    if |parts| == 1 then parts[0] else parts[0] + "/" + Join(parts[1..])
  }

  function Split(s: string): (parts: seq<string>)
    ensures parts != []
  {
    if s == "" then [""]
    else
      var rest := Split(s[1..]);
      if s[0] == '/' then [""] + rest else [[s[0]] + rest[0]] + rest[1..]
  }

  lemma {:induction false} SplitFirst(p: string, s: string)
    requires '/' !in p && (s == "" || s[0] == '/')
    ensures Split(p + s) == [p] + if s == "" then [] else Split(s[1..])
  {
    if p == "" {
      assert p + s == s;
    } else {
      assert (p + s)[1..] == p[1..] + s;
      SplitFirst(p[1..], s);
      assert p == [p[0]] + p[1..];
    }
  }

  /** Splitting undoes joining. */
  lemma {:induction false} SplitJoin(parts: seq<string>)
    requires parts != [] && forall i :: 0 <= i < |parts| ==> '/' !in parts[i]
    ensures Split(Join(parts)) == parts
  {
    if |parts| == 1 {
      SplitFirst(parts[0], "");
      assert parts[0] + "" == parts[0];
    } else {
      SplitJoin(parts[1..]);
      var tail := "/" + Join(parts[1..]);
      SplitFirst(parts[0], tail);
      assert tail[1..] == Join(parts[1..]);
      assert Join(parts) == parts[0] + tail;
      assert parts == [parts[0]] + parts[1..];
    }
  }

  /** A literal of the contract: no separator, no query, no brace at its start, no template in it. */
  ghost predicate PlainLiteral(text: string) {
    && '/' !in text && '?' !in text && (text != "" ==> text[0] != '{') && forall k :: !OpensAt(text, k)
  }

  ghost predicate IsPath(path: seq<Segment>) {
    && path != []
    && (forall i :: 0 <= i < |path| ==> if path[i].Literal? then PlainLiteral(path[i].text) else '/' !in path[i].name)
    && (path[|path| - 1].Literal? ==> TrimRight(path[|path| - 1].text) == path[|path| - 1].text)
  }

  /** As written in the OpenAPI document, as the frontend writes it, and as normalised. */
  function InContract(s: Segment): string { if s.Literal? then s.text else "{" + s.name + "}" }
  function InFrontend(s: Segment, e: string): string { if s.Literal? then s.text else "${" + e + "}" }
  function Normalized(s: Segment): string { if s.Literal? then s.text else Mark() }

  function Contract(path: seq<Segment>): seq<string> { seq(|path|, i requires 0 <= i < |path| => InContract(path[i])) }
  function Template(path: seq<Segment>): seq<string> { seq(|path|, i requires 0 <= i < |path| => Normalized(path[i])) }
  function Rendered(path: seq<Segment>, es: seq<string>): seq<string>
    requires |es| == |path|
  {
    seq(|path|, i requires 0 <= i < |path| => InFrontend(path[i], es[i]))
  }

  /** The expressions: balanced and without '?'. */
  ghost predicate AreExpressions(es: seq<string>) {
    forall i :: 0 <= i < |es| ==> Balanced(es[i]) && '?' !in es[i]
  }

  /** Expanding a rendered path gives its template. */
  lemma {:induction false} RenderedExpands(path: seq<Segment>, es: seq<string>)
    requires |es| == |path| && IsPath(path) && AreExpressions(es)
    ensures Expand('/', Join(Rendered(path, es))) == Join(Template(path))
    decreases |path|
  {
    var r, t := Rendered(path, es), Template(path);
    assert r[0] == InFrontend(path[0], es[0]) && t[0] == Normalized(path[0]);
    if |path| == 1 {
      hide Expand, Balanced, PlainLiteral;
      HeadAlone(path[0], es[0]);
    } else {
      RenderedTail(path, es);
      hide Expand, Balanced, PlainLiteral, Rendered, Template, InFrontend, Normalized;
      RenderedExpands(path[1..], es[1..]);
      HeadThenRest(path[0], es[0], Join(r[1..]));
      JoinHead(r);
      JoinHead(t);
    }
  }

  lemma JoinHead(parts: seq<string>)
    requires |parts| >= 2
    ensures Join(parts) == parts[0] + ("/" + Join(parts[1..]))
  {
    assert parts[0] + "/" + Join(parts[1..]) == parts[0] + ("/" + Join(parts[1..]));
  }

  lemma RenderedTail(path: seq<Segment>, es: seq<string>)
    requires |es| == |path| >= 2 && IsPath(path)
    ensures Rendered(path, es)[1..] == Rendered(path[1..], es[1..]) && Template(path)[1..] == Template(path[1..])
    ensures IsPath(path[1..])
  {
    hide PlainLiteral, TrimRight;
  }

  lemma HeadAlone(head: Segment, e: string)
    requires Balanced(e) && (head.Literal? ==> PlainLiteral(head.text))
    ensures Expand('/', InFrontend(head, e)) == Normalized(head)
  {
    hide Expand, Balanced, OpensAt, Mark;
    if head.Param? {
      ExpressionReplaced(e, "");
      NoTemplate('}', "") by { assert forall k :: !OpensAt("", k) by { EmptyIsPlain(); } }
    } else {
      NoTemplate('/', head.text);
    }
  }

  lemma EmptyIsPlain()
    ensures forall k :: !OpensAt("", k)
  {
  }

  lemma HeadThenRest(head: Segment, e: string, rest: string)
    requires Balanced(e) && (head.Literal? ==> PlainLiteral(head.text))
    ensures Expand('/', InFrontend(head, e) + ("/" + rest)) == Normalized(head) + ("/" + Expand('/', rest))
  {
    hide Expand, Balanced, OpensAt, Mark;
    if head.Param? {
      ExpressionReplaced(e, "/" + rest);
      EmptyIsPlain();
      SlashCopied('}', "", rest);
    } else {
      SlashCopied('/', head.text, rest);
    }
  }

  lemma SlashCopied(prev: char, text: string, rest: string)
    requires forall k :: !OpensAt(text, k)
    ensures Expand(prev, text + ("/" + rest)) == text + ("/" + Expand('/', rest))
    ensures text == "" ==> Expand(prev, "/" + rest) == "/" + Expand('/', rest)
  {
    var p := text + "/";
    forall k ensures !OpensAt(p, k) { assert !OpensAt(text, k); }
    PlainCopied(prev, p, rest);
    hide Expand;
    assert p + rest == text + ("/" + rest) && p + Expand('/', rest) == text + ("/" + Expand('/', rest));
    if text == "" { assert p == "/"; }
  }

  lemma NoTemplate(prev: char, s: string)
    requires forall k :: !OpensAt(s, k)
    ensures Expand(prev, s) == s
  {
    assert FirstOpening(s, 0) == |s|;
  }

  // ----- normalizePath -----

  function CutAtQuery(raw: string): string {
    if raw == "" || raw[0] == '?' then "" else [raw[0]] + CutAtQuery(raw[1..])
  }

  lemma {:induction false} CutKeeps(p: string, query: string)
    requires '?' !in p && (query == "" || query[0] == '?')
    ensures CutAtQuery(p + query) == p
  {
    if p == "" {
      assert p + query == query;
    } else {
      assert (p + query)[1..] == p[1..] + query;
      CutKeeps(p[1..], query);
    }
  }

  lemma {:induction false} CutIsPrefix(raw: string, i: nat)
    requires i <= |raw| && '?' !in raw[..i] && (i == |raw| || raw[i] == '?')
    ensures CutAtQuery(raw) == raw[..i]
  {
    assert raw == raw[..i] + raw[i..];
    CutKeeps(raw[..i], raw[i..]);
  }

  ghost function NormalPath(raw: string): string { TrimRight(Expand('/', CutAtQuery(raw))) }

  method NormalizePath(raw: string) returns (path: string)
    ensures path == NormalPath(raw)
  {
    var i := 0;
    while i < |raw| && raw[i] != '?'
      invariant 0 <= i <= |raw| && '?' !in raw[..i]
    {
      i := i + 1;
    }
    CutIsPrefix(raw, i);
    path := NormalizeTemplateExpressions(raw[..i]);
  }

  lemma {:induction false} NoQueryInJoin(parts: seq<string>)
    requires parts != [] && forall i :: 0 <= i < |parts| ==> '?' !in parts[i]
    ensures '?' !in Join(parts)
  {
    if |parts| > 1 { NoQueryInJoin(parts[1..]); }
  }

  lemma {:induction false} JoinNotTrimmed(parts: seq<string>)
    requires parts != [] && TrimRight(parts[|parts| - 1]) == parts[|parts| - 1]
    ensures TrimRight(Join(parts)) == Join(parts)
  {
    if |parts| > 1 {
      JoinNotTrimmed(parts[1..]);
      var rest := Join(parts[1..]);
      NotTrimmed(rest);
      assert Join(parts)[|Join(parts)| - 1] == (if rest == "" then '/' else rest[|rest| - 1]);
    }
  }

  lemma NotTrimmed(s: string)
    ensures |TrimRight(s)| <= |s| && (TrimRight(s) == s <==> s == "" || s[|s| - 1] != ' ')
  {
    TrimShortens(s);
    if s != "" { TrimShortens(s[..|s| - 1]); }
  }

  lemma {:induction false} TrimShortens(s: string)
    ensures |TrimRight(s)| <= |s|
  {
    if s != "" && s[|s| - 1] == ' ' { TrimShortens(s[..|s| - 1]); }
  }

  /** A rendered path, with any query appended, is normalised to its template. */
  lemma RenderedNormalises(path: seq<Segment>, es: seq<string>, query: string)
    requires |es| == |path| && IsPath(path) && AreExpressions(es) && (query == "" || query[0] == '?')
    ensures NormalPath(Join(Rendered(path, es)) + query) == Join(Template(path))
  {
    assert path != [];
    hide IsPath, AreExpressions, InFrontend, Normalized, Join, CutAtQuery, Expand, TrimRight;
    RenderedHasNoQuery(path, es);
    CutKeeps(Join(Rendered(path, es)), query);
    RenderedExpands(path, es);
    TemplateNotTrimmed(path);
  }

  lemma RenderedHasNoQuery(path: seq<Segment>, es: seq<string>)
    requires |es| == |path| && IsPath(path) && AreExpressions(es)
    ensures path != [] && '?' !in Join(Rendered(path, es))
  {
    hide TrimRight, Balanced;
    forall i | 0 <= i < |path| ensures '?' !in Rendered(path, es)[i] {}
    NoQueryInJoin(Rendered(path, es));
  }

  lemma TemplateNotTrimmed(path: seq<Segment>)
    requires IsPath(path)
    ensures TrimRight(Join(Template(path))) == Join(Template(path))
  {
    MarkNotTrimmed();
    hide TrimRight, PlainLiteral, Mark;
    JoinNotTrimmed(Template(path));
  }

  lemma MarkNotTrimmed()
    ensures TrimRight(Mark()) == Mark()
  {
  }

  /** An expression glued to a literal builds a query: it and what follows are dropped. */
  lemma GluedExpressionDropped(prev: char, text: string, rest: string)
    requires text != "" && text[|text| - 1] != '/' && forall k :: !OpensAt(text, k)
    ensures Expand(prev, text + "${" + rest) == text
  {
    var s := "${" + rest;
    assert text + s == text + "${" + rest;
    PlainCopied(prev, text, s);
    assert OpensAt(s, 0) && s[..0] == "";
  }

  lemma EndInRest(rest: string, k: int)
    ensures IsEnd("${" + rest, 2, k) ==> IsEnd(rest, 0, k - 2)
  {
    if IsEnd("${" + rest, 2, k) { assert ("${" + rest)[2..k] == rest[0..k - 2]; }
  }

  lemma OpenAtOnce(prev: char, rest: string)
    requires forall k :: !IsEnd(rest, 0, k)
    ensures Expand(prev, "${" + rest) == ""
  {
    var s := "${" + rest;
    assert OpensAt(s, 0) && s[..0] == "";
    forall k ensures !IsEnd(s, 2, k) { EndInRest(rest, k); }
    hide IsEnd;
    assert FirstOpening(s, 0) == 0;
  }

  /** An expression that is never closed is dropped, and the text before it stays. */
  lemma UnclosedExpressionDropped(prev: char, text: string, rest: string)
    requires text != "" && forall k :: !OpensAt(text, k)
    requires forall k :: !IsEnd(rest, 0, k)
    ensures Expand(prev, text + "${" + rest) == text
  {
    hide Expand, IsEnd, OpensAt, Glue;
    var s := "${" + rest;
    assert text + s == text + "${" + rest;
    OpenAtOnce(text[|text| - 1], rest);
    PlainCopied(prev, text, s);
  }

  // ----- matching -----

  datatype Operation = Operation(verb: string, path: seq<Segment>)

  function Key(op: Operation): string
    requires op.path != []
  {
    op.verb + " " + Join(Contract(op.path))
  }

  function CutFirst(key: string): (string, string) {
    if key == "" then ("", "")
    else if key[0] == ' ' then ("", key[1..])
    else var (a, b) := CutFirst(key[1..]); ([key[0]] + a, b)
  }

  lemma {:induction false} CutKey(verb: string, path: string)
    requires ' ' !in verb
    ensures CutFirst(verb + " " + path) == (verb, path)
  {
    var key := verb + " " + path;
    if verb == "" {
      assert key == " " + path && key[1..] == path;
    } else {
      assert key[1..] == verb[1..] + " " + path;
      CutKey(verb[1..], path);
      assert verb == [verb[0]] + verb[1..];
    }
  }

  predicate SegmentMatches(got: string, want: string) {
    var specParam := got != "" && got[0] == '{';
    specParam == (want == Mark()) && (specParam || got == want)
  }

  predicate AllMatch(got: seq<string>, want: seq<string>) {
    |got| == |want| && forall i :: 0 <= i < |want| ==> SegmentMatches(got[i], want[i])
  }

  predicate Matches(fullPath: string, verb: string, key: string) {
    var (keyVerb, keyPath) := CutFirst(key);
    keyVerb == verb && AllMatch(Split(keyPath), Split(fullPath))
  }

  /** matchSpec: the keys are visited in no particular order. */
  method MatchSpec(fullPath: string, verb: string, keys: set<string>) returns (found: Option<string>)
    ensures found.Some? ==> found.value in keys && Matches(fullPath, verb, found.value)
    ensures found.None? ==> forall key :: key in keys ==> !Matches(fullPath, verb, key)
  {
    var want := Split(fullPath);
    var todo := keys;
    while todo != {}
      invariant todo <= keys && forall key :: key in keys && key !in todo ==> !Matches(fullPath, verb, key)
    {
      var key :| key in todo;
      var (keyVerb, keyPath) := CutFirst(key);
      var got := Split(keyPath);
      if keyVerb == verb && |got| == |want| {
        var ok := true;
        var i := 0;
        while i < |want| && ok
          invariant 0 <= i <= |want|
          invariant ok ==> forall k :: 0 <= k < i ==> SegmentMatches(got[k], want[k])
          invariant !ok ==> exists k :: 0 <= k < |want| && !SegmentMatches(got[k], want[k])
        {
          var specParam := |got[i]| > 0 && got[i][0] == '{';
          var callParam := want[i] == Mark();
          if specParam != callParam || (!specParam && got[i] != want[i]) { ok := false; }
          i := i + 1;
        }
        if ok { return Some(key); }
      }
      todo := todo - {key};
    }
    found := None;
  }

  /** Equal up to the names of parameters. */
  predicate SameShape(a: seq<Segment>, b: seq<Segment>) {
    && |a| == |b|
    && forall i :: 0 <= i < |a| ==> if a[i].Literal? then a[i] == b[i] else b[i].Param?
  }

  /** A template matches an operation exactly when verb and path agree up to parameter names. */
  lemma MatchesExactly(verb: string, path: seq<Segment>, op: Operation)
    requires IsPath(path) && IsPath(op.path) && ' ' !in op.verb
    ensures Matches(Join(Template(path)), verb, Key(op)) <==> op.verb == verb && SameShape(path, op.path)
  {
    KeyParts(op);
    TemplateParts(path);
    ShapesMatch(path, op.path);
    hide Split, CutFirst, Join, IsPath, Key, AllMatch, SameShape, Contract, Template;
  }

  lemma ShapesMatch(call: seq<Segment>, spec: seq<Segment>)
    requires IsPath(call) && IsPath(spec)
    ensures AllMatch(Contract(spec), Template(call)) <==> SameShape(call, spec)
  {
    hide SegmentMatches, InContract, Normalized, PlainLiteral;
    var got, want := Contract(spec), Template(call);
    if |call| == |spec| {
      forall i | 0 <= i < |call| ensures SegmentMatches(got[i], want[i]) <==> if call[i].Literal? then call[i] == spec[i] else spec[i].Param? {
        OneSegment(call[i], spec[i]);
      }
    }
  }

  lemma KeyParts(op: Operation)
    requires IsPath(op.path) && ' ' !in op.verb
    ensures CutFirst(Key(op)) == (op.verb, Join(Contract(op.path))) && Split(Join(Contract(op.path))) == Contract(op.path)
  {
    CutKey(op.verb, Join(Contract(op.path)));
    SplitJoin(Contract(op.path));
  }

  lemma TemplateParts(path: seq<Segment>)
    requires IsPath(path)
    ensures Split(Join(Template(path))) == Template(path)
  {
    SplitJoin(Template(path));
  }

  lemma OneSegment(call: Segment, spec: Segment)
    requires call.Literal? ==> PlainLiteral(call.text)
    requires spec.Literal? ==> PlainLiteral(spec.text)
    ensures SegmentMatches(InContract(spec), Normalized(call)) <==> if call.Literal? then call == spec else spec.Param?
  {
  }

  // ----- the whole check of one call -----

  const ApiPrefix := "/api/v1"

  function ContractPath(path: string): string {
    if |path| >= 5 && path[..5] == "/api/" then path else ApiPrefix + path
  }

  /** The contract's path for a call's path, which begins with '/'. */
  function FullPath(path: seq<Segment>): seq<Segment> {
    if |path| >= 3 && path[1] == Literal("api") then path
    else [Literal(""), Literal("api"), Literal("v1")] + if path == [] then [] else path[1..]
  }

  lemma PrefixAdded(path: seq<Segment>)
    requires |path| >= 2 && path[0] == Literal("") && IsPath(path)
    ensures IsPath(FullPath(path)) && ContractPath(Join(Template(path))) == Join(Template(FullPath(path)))
  {
    ApiSegment(path);
    FullIsPath(path);
    if !(|path| >= 3 && path[1] == Literal("api")) { FullJoins(path); }
  }

  lemma FullIsPath(path: seq<Segment>)
    requires path != [] && IsPath(path)
    ensures FullPath(path) != [] && (|path| >= 2 ==> IsPath(FullPath(path)))
  {
    hide PlainLiteral, TrimRight;
    ShortLiterals();
    var full := FullPath(path);
    if full != path {
      assert forall i :: 3 <= i < |full| ==> full[i] == path[i - 2];
    }
  }

  lemma FullJoins(path: seq<Segment>)
    requires |path| >= 2 && path[0] == Literal("") && !(|path| >= 3 && path[1] == Literal("api"))
    ensures ApiPrefix + Join(Template(path)) == Join(Template(FullPath(path)))
  {
    var t := Template(path);
    var rest := t[1..];
    assert Template(FullPath(path)) == ["", "api", "v1"] + rest;
    JoinPrefixed(rest);
    assert t[0] == "" && "" + "/" == "/";
  }

  lemma ShortLiterals()
    ensures PlainLiteral("api") && PlainLiteral("v1") && PlainLiteral("")
  {
  }

  lemma JoinPrefixed(rest: seq<string>)
    requires rest != []
    ensures Join(["", "api", "v1"] + rest) == "/api/v1" + ("/" + Join(rest))
  {
    var full := ["", "api", "v1"] + rest;
    assert full[1..] == ["api", "v1"] + rest;
    assert full[1..][1..] == ["v1"] + rest;
    assert full[1..][1..][1..] == rest;
    assert Join(full[1..][1..]) == "v1/" + Join(rest);
    assert Join(full[1..]) == "api/v1/" + Join(rest);
  }

  lemma ApiSegment(path: seq<Segment>)
    requires |path| >= 2 && path[0] == Literal("") && IsPath(path)
    ensures |Join(Template(path))| >= 5 && Join(Template(path))[..5] == "/api/" <==> |path| >= 3 && path[1] == Literal("api")
  {
    var t := Template(path);
    SplitJoin(t);
    if |Join(t)| >= 5 && Join(t)[..5] == "/api/" { ApiSplits(Join(t)); }
    if |t| >= 3 && t[1] == "api" { ApiJoined(t); }
  }

  lemma ApiSplits(s: string)
    requires |s| >= 5 && s[..5] == "/api/"
    ensures |Split(s)| >= 3 && Split(s)[1] == "api"
  {
    hide *;
    var rest := s[5..];
    var tail := "/api" + ("/" + rest);
    assert s == "" + tail;
    SplitFirst("", tail);
    assert tail[1..] == "api" + ("/" + rest);
    SplitFirst("api", "/" + rest);
  }

  lemma ApiJoined(t: seq<string>)
    requires |t| >= 3 && t[0] == "" && t[1] == "api"
    ensures |Join(t)| >= 5 && Join(t)[..5] == "/api/"
  {
    var rest := Join(t[1..][1..]);
    assert Join(t[1..]) == "api" + "/" + rest;
    assert Join(t) == "" + "/" + ("api" + "/" + rest);
    assert Join(t) == "/api/" + rest;
  }

  /**
   * A call whose path renders `path` is found exactly when the contract has an operation
   * with its verb and, up to parameter names, its path; what is found is such an operation.
   * `found` is the operation whose key MatchSpec returned, described by what it promises.
   */
  lemma RenderedCallIsFound(ops: set<Operation>, verb: string, path: seq<Segment>, es: seq<string>, query: string, found: Option<Operation>)
    requires forall op :: op in ops ==> IsPath(op.path) && ' ' !in op.verb
    requires |path| >= 2 && path[0] == Literal("") && IsPath(path)
    requires |es| == |path| && AreExpressions(es) && (query == "" || query[0] == '?')
    requires found.Some? ==> found.value in ops && Answers(found.value, verb, Join(Rendered(path, es)) + query)
    requires found.None? ==> forall op :: op in ops ==> !Answers(op, verb, Join(Rendered(path, es)) + query)
    ensures found.Some? <==> exists op :: op in ops && op.verb == verb && SameShape(FullPath(path), op.path)
    ensures found.Some? ==> found.value in ops && found.value.verb == verb && SameShape(FullPath(path), found.value.path)
  {
    forall op | op in ops ensures Answers(op, verb, Join(Rendered(path, es)) + query) <==> op.verb == verb && SameShape(FullPath(path), op.path) {
      AnswersExactly(op, verb, path, es, query);
    }
  }

  /** matchSpec accepts the operation's key for a call with this verb and raw path. */
  ghost predicate Answers(op: Operation, verb: string, raw: string) {
    op.path != [] && Matches(ContractPath(NormalPath(raw)), verb, Key(op))
  }

  lemma AnswersExactly(op: Operation, verb: string, path: seq<Segment>, es: seq<string>, query: string)
    requires IsPath(op.path) && ' ' !in op.verb
    requires |path| >= 2 && path[0] == Literal("") && IsPath(path)
    requires |es| == |path| && AreExpressions(es) && (query == "" || query[0] == '?')
    ensures Answers(op, verb, Join(Rendered(path, es)) + query) <==> op.verb == verb && SameShape(FullPath(path), op.path)
  {
    RenderedNormalises(path, es, query);
    PrefixAdded(path);
    MatchesExactly(verb, FullPath(path), op);
  }
}
