/** The code generator that expands `@reactive(...)` property declarations
    into a backing field, a setter and a getter, line by line, leaving
    comments alone.

    A declaration line reads
      `<indent>@reactive('e1', 'e2') key?: Type = initializer;`
    The generator locates the marker, the closing parenthesis, the last ';'
    and '=', the first ':' and '?:' after the parenthesis, and cuts the line
    at those positions; it does not parse TypeScript. File discovery, git
    and file writes are outside this model. */
module Redecorate {
  import opened Js
  import opened JsString

  /** The decorator marker the generator looks for. */
  const Marker := "@reactive("

  /** The six types whose setters compare strictly, without the object check. */
  const PrimitiveTypes: seq<string> :=
    [": number", ": string", ": boolean", ": number | undefined", ": string | undefined", ": boolean | undefined"]

  /** The clause appended to the setter's guard for non-primitive types. */
  const ObjectCheckClause := " || (typeof value === 'object' && value !== null)"

  /** `getIndent`: the leading white space of a line. */
  function GetIndent(line: string): (indent: string)
    ensures line == indent + TrimStart(line)
    ensures forall i :: 0 <= i < |indent| ==> IsSpace(indent[i])
  {
    TrimStartSplits(line);
    assert line == line[..|line| - |TrimStart(line)|] + line[|line| - |TrimStart(line)|..];
    line[..|line| - |TrimStart(line)|]
  }

  /** Lines the expander returns unchanged: without the marker, or line comments. */
  predicate Untouched(line: string) {
    IndexOf(line, Marker, 0) < 0 || IndexOf(TrimStart(line), "//", 0) == 0
  }

  // ---------------------------------------------------------------------------
  // Reading a declaration

  /** The cut positions of a declaration line, named as in the generator. */
  datatype Positions = Positions(reactiveIdx: int, closeParen: int, semiOrEOL: int, assignIdx: int, fnType: bool,
                                 assignSemiOrEOL: int, colon: int, optional: int)

  function Scan(line: string): (p: Positions)
    ensures p.fnType ==> p.assignIdx >= 0
    ensures p.assignSemiOrEOL == if p.assignIdx >= 0 && !p.fnType then p.assignIdx else p.semiOrEOL
  {
    var reactiveIdx := IndexOf(line, Marker, 0);
    var closeParen := IndexOf(line, ")", reactiveIdx);
    var semiIdx := LastIndexOf(line, ';');
    var semiOrEOL := if semiIdx >= 0 then semiIdx else |line| - 1;
    var assignIdx := LastIndexOf(line, '=');
    var fnType := assignIdx >= 0 && IndexOf(line, ">", assignIdx) == assignIdx + 1;
    var assignSemiOrEOL := if assignIdx >= 0 && !fnType then assignIdx else semiOrEOL;
    var colon := IndexOf(line, ":", closeParen);
    var optional := IndexOf(line, "?:", closeParen);
    Positions(reactiveIdx, closeParen, semiOrEOL, assignIdx, fnType, assignSemiOrEOL, colon, optional)
  }

  /** What the generator reads from a declaration: the key, the type text it
      emits, the events and the initializer (None when the field gets no
      default). */
  datatype Declaration = Declaration(key: string, typ: string, events: seq<string>, initializer: Option<string>)

  /** `event.substring(1, event.length - 1)`: drops the first and last character. */
  function Unquote(e: string): string {
    Substring(e, 1, |e| - 1)
  }

  /** `.map(event => event.trim()).filter(Boolean).map(unquote)`. */
  function EventNames(pieces: seq<string>): (r: seq<string>)
    ensures |r| <= |pieces|
  {
    if pieces == [] then []
    else
      var t := Trim(pieces[0]);
      (if t != "" then [Unquote(t)] else []) + EventNames(pieces[1..])
  }

  /** The events of the decorator's argument text. */
  function Events(args: string): seq<string> {
    EventNames(Split(args, ','))
  }

  /** The type text the generator emits. An explicit type that already says
      `| undefined` is kept; a function type (`=>` right after the last '=')
      is parenthesised; an optional key adds ` | undefined`. Without an
      explicit type the initializer decides: a quote gives string, a number
      gives number, `true`/`false` give boolean (never with ` | undefined`),
      anything else gives any. */
  function TypeOf(explicitType: string, fnType: bool, optional: bool, value: string): (t: string)
    ensures explicitType != "" && Contains(explicitType, "| undefined") ==> t == explicitType
  {
    var orUndefined := if optional then " | undefined" else "";
    if explicitType != "" then
      if Contains(explicitType, "| undefined") then explicitType
      else if fnType then ": (" + Substring(explicitType, 2, |explicitType|) + ")" + orUndefined
      else explicitType + orUndefined
    else if |value| > 0 && (value[0] == '\'' || value[0] == '"') then ": string" + orUndefined
    else if ParsesAsNumber(value) then ": number" + orUndefined
    else if value == "true" || value == "false" then ": boolean"
    else ": any"
  }

  /** The key: from the parenthesis to the '?:', else the ':', else the
      initializer's '=' or the end. */
  function KeyText(line: string, p: Positions): string {
    Trim(Substring(line, p.closeParen + 1,
                   if p.optional >= 0 then p.optional else if p.colon >= 0 then p.colon else p.assignSemiOrEOL))
  }

  /** The explicit type, with its ':', up to the initializer's '=' or the end. */
  function ExplicitType(line: string, p: Positions): string {
    if p.colon >= 0 then Trim(Substring(line, p.colon, p.assignSemiOrEOL)) else ""
  }

  /** The value: after the initializer's '=' (or the ';') up to the ';'. */
  function ValueText(line: string, p: Positions): string {
    Trim(Substring(line, p.assignSemiOrEOL + 1, p.semiOrEOL))
  }

  /** Reading a declaration at its cut positions. */
  function Read(line: string, p: Positions): (d: Declaration)
    ensures d.initializer.Some? <==> p.assignIdx >= 0 && !p.fnType
    ensures d.events == Events(Substring(line, p.reactiveIdx + |Marker|, p.closeParen))
  {
    var value := ValueText(line, p);
    Declaration(KeyText(line, p), TypeOf(ExplicitType(line, p), p.fnType, p.optional >= 0, value),
                Events(Substring(line, p.reactiveIdx + |Marker|, p.closeParen)),
                if p.assignIdx >= 0 && !p.fnType then Some(value) else None)
  }

  function Parse(line: string): Declaration {
    Read(line, Scan(line))
  }

  // ---------------------------------------------------------------------------
  // Writing the accessors

  /** `'e1', 'e2'`: the events quoted and comma-separated. */
  function QuotedList(events: seq<string>): string {
    Join(Quoted(events), ", ")
  }

  function Quoted(events: seq<string>): (q: seq<string>)
    ensures |q| == |events| && forall k :: 0 <= k < |events| ==> q[k] == "'" + events[k] + "'"
  {
    seq(|events|, k requires 0 <= k < |events| => "'" + events[k] + "'")
  }

  predicate HasObjectCheck(typ: string) {
    typ !in PrimitiveTypes
  }

  /** The accessor lines for a declaration, before indentation: the backing
      field, the setter (guard, store, property listeners, then the event
      line when there are events), the getter and a blank line. */
  function Render(d: Declaration): (lines: seq<string>)
    ensures |lines| == if d.events == [] then 12 else 13
    ensures lines[0] == FieldLine(d)
    ensures lines[3] == "  if (value !== oldValue" + (if HasObjectCheck(d.typ) then ObjectCheckClause else "") + ") {"
    ensures d.events != [] ==> lines[6] == "    this.notifyEventListeners([" + QuotedList(d.events) + "]);"
    ensures lines[|lines| - 1] == ""
  {
    var field := "_" + d.key;
    var check := if HasObjectCheck(d.typ) then ObjectCheckClause else "";
    var eventLines := if d.events != [] then ["    this.notifyEventListeners([" + QuotedList(d.events) + "]);"] else [];
    [FieldLine(d),
     "set " + d.key + "(value" + d.typ + ") {",
     "  const oldValue = this." + field + ";",
     "  if (value !== oldValue" + check + ") {",
     "    this." + field + " = value;",
     "    this.notifyPropertyListeners('" + d.key + "', oldValue, value);"]
    + eventLines
    + ["  }", "}", "get " + d.key + "()" + d.typ + " {", "  return this." + field + ";", "}", ""]
  }

  /** The backing field's declaration, with the initializer when there is one. */
  function FieldLine(d: Declaration): (l: string)
  {
    "private _" + d.key + (d.typ + (if d.initializer.Some? then " = " + d.initializer.value else "") + ";")
  }

  /** A generated line with the indent, or '' when that is blank. */
  function IndentLine(indent: string, l: string): (r: string)
    ensures Trim(indent + l) == "" ==> r == ""
    ensures Trim(indent + l) != "" ==> r == indent + l
  {
    if Trim(indent + l) == "" then "" else indent + l
  }

  function IndentAll(indent: string, lines: seq<string>): (r: seq<string>)
    ensures |r| == |lines| && forall k :: 0 <= k < |lines| ==> r[k] == IndentLine(indent, lines[k])
  {
    seq(|lines|, k requires 0 <= k < |lines| => IndentLine(indent, lines[k]))
  }

  /** `expandReactiveProperty`: an untouched line as it is, otherwise the
      indented accessor lines joined by newlines. */
  function Expand(line: string, indent: string): (r: string)
    ensures Untouched(line) ==> r == line
  {
    if Untouched(line) then line else Join(IndentAll(indent, Render(Parse(line))), "\n")
  }

  // ---------------------------------------------------------------------------
  // Comment blocks

  // A line opens a comment block when, past its indent, it starts with
  // slash-star. As the generator counts, that holds even for a block comment
  // that also ends on its opening line; in the corrected reading such a line
  // opens no block, since no star-slash may follow the opening.
  predicate OpensBlock(line: string, asWritten: bool) {
    var t := TrimStart(line);
    StartsWith(t, "/*") && (asWritten || !Contains(t[2..], "*/"))
  }

  // A line closes a block when, past its indent, it starts with star-slash.
  predicate ClosesBlock(line: string) {
    StartsWith(TrimStart(line), "*/")
  }

  /** What a line does to the comment depth. */
  datatype Mark = Opens | Closes | Plain

  function MarkOf(line: string, asWritten: bool): (m: Mark)
    ensures m == Opens <==> OpensBlock(line, asWritten)
    ensures m == Closes <==> !OpensBlock(line, asWritten) && ClosesBlock(line)
  {
    if OpensBlock(line, asWritten) then Opens else if ClosesBlock(line) then Closes else Plain
  }

  /** The comment depth after a line: up by one on an opening line, down by
      one (never below zero) on a closing line. */
  function Step(depth: nat, m: Mark): nat {
    match m
    case Opens => depth + 1
    case Closes => if depth > 0 then depth - 1 else 0
    case Plain => depth
  }

  /** The depth after the first `k` marks. */
  function Depth(marks: seq<Mark>, k: nat): nat
    requires k <= |marks|
  {
    if k == 0 then 0 else Step(Depth(marks, k - 1), marks[k - 1])
  }

  function Marks(lines: seq<string>, asWritten: bool): (marks: seq<Mark>)
    ensures |marks| == |lines| && forall k :: 0 <= k < |lines| ==> marks[k] == MarkOf(lines[k], asWritten)
  {
    seq(|lines|, k requires 0 <= k < |lines| => MarkOf(lines[k], asWritten))
  }

  /** The depth after the first `k` lines. */
  function DepthAfter(lines: seq<string>, k: nat, asWritten: bool): nat
    requires k <= |lines|
  {
    Depth(Marks(lines, asWritten), k)
  }

  /** Reference: line `k` of the output is the line itself inside a comment
      block (the depth after it is positive), else its expansion. */
  function OutputLine(lines: seq<string>, k: nat, asWritten: bool): string
    requires k < |lines|
  {
    Emit(DepthAfter(lines, k + 1, asWritten), lines[k], ExpandLine)
  }

  /** A line expanded with its own indent. */
  function ExpandLine(line: string): string {
    Expand(line, GetIndent(line))
  }

  function Emit(depth: nat, line: string, expand: string -> string): string {
    if depth > 0 then line else expand(line)
  }

  /** `transformText`: each line with its comment mark, through the
      generator's loop. The source returns the output lines joined by '\n';
      that last join is left to the caller, since `JsString.SplitJoin`
      shows splitting and joining lose nothing. */
  method TransformLines(lines: seq<string>, asWritten: bool) returns (out: seq<string>)
    ensures |out| == |lines|
    ensures forall k :: 0 <= k < |lines| ==> out[k] == OutputLine(lines, k, asWritten)
  {
    out := CountAndExpand(lines, Marks(lines, asWritten), ExpandLine);
  }

  /** The generator's loop: the comment counter follows the marks, and each
      line is kept inside a block or expanded outside one. */
  method CountAndExpand(lines: seq<string>, marks: seq<Mark>, expand: string -> string) returns (out: seq<string>)
    requires |marks| == |lines|
    ensures |out| == |lines|
    ensures forall k :: 0 <= k < |lines| ==> out[k] == Emit(Depth(marks, k + 1), lines[k], expand)
  {
    out := [];
    var comment: nat := 0;
    var i := 0;
    while i < |lines|
      invariant i <= |lines| && |out| == i
      invariant comment == Depth(marks, i)
      invariant forall k :: 0 <= k < i ==> out[k] == Emit(Depth(marks, k + 1), lines[k], expand)
    {
      if marks[i] == Opens {
        comment := comment + 1;
      } else if marks[i] == Closes {
        comment := if comment > 0 then comment - 1 else 0;
      }
      out := out + [Emit(comment, lines[i], expand)];
      i := i + 1;
    }
  }

  // A block's lines are never expanded: from a line opening a block up to,
  // but not including, the first later line starting with star-slash, every
  // line is returned as it is.
  lemma BlockLinesVerbatim(lines: seq<string>, i: nat, j: nat, asWritten: bool, k: nat)
    requires i <= k < j <= |lines|
    requires OpensBlock(lines[i], asWritten)
    requires forall m :: i < m < j ==> !ClosesBlock(lines[m])
    ensures OutputLine(lines, k, asWritten) == lines[k]
  {
    DepthPositive(Marks(lines, asWritten), i, k);
  }

  /** Past an opening mark, the depth stays positive until a closing mark. */
  lemma {:induction false} DepthPositive(marks: seq<Mark>, i: nat, k: nat)
    requires i <= k < |marks|
    requires marks[i] == Opens
    requires forall m :: i < m <= k ==> marks[m] != Closes
    ensures Depth(marks, k + 1) > 0
    decreases k - i
  {
    if k > i {
      DepthPositive(marks, i, k - 1);
    }
  }

  /** A block comment that opens and closes on one line. */
  predicate SelfClosed(line: string) {
    var t := TrimStart(line);
    StartsWith(t, "/*") && Contains(t[2..], "*/")
  }

  /** Marks that agree on a prefix give the same depth after it. */
  lemma {:induction false} DepthOfPrefix(a: seq<Mark>, b: seq<Mark>, n: nat)
    requires n <= |a| && n <= |b|
    requires forall j :: 0 <= j < n ==> a[j] == b[j]
    ensures Depth(a, n) == Depth(b, n)
  {
    if n > 0 {
      DepthOfPrefix(a, b, n - 1);
    }
  }

  /** Dropping a plain mark changes no later depth. */
  lemma {:induction false} DepthWithoutPlain(m: seq<Mark>, i: nat, k: nat)
    requires i < k <= |m| && m[i] == Plain
    ensures Depth(m, k) == Depth(m[..i] + m[i + 1..], k - 1)
    decreases k
  {
    var r := m[..i] + m[i + 1..];
    if k == i + 1 {
      DepthOfPrefix(m, r, i);
    } else {
      DepthWithoutPlain(m, i, k - 1);
      assert r[k - 2] == m[k - 1];
    }
  }

  /** In the corrected counting a self-closed comment line neither opens nor closes a block. */
  lemma SelfClosedPlain(line: string)
    requires SelfClosed(line)
    ensures MarkOf(line, false) == Plain
  {
    var t := TrimStart(line);
    assert t[..2] == "/*";
  }

  /** So the depth after any later line is what it would be without that line. */
  lemma SelfClosedDepth(lines: seq<string>, i: nat, k: nat)
    requires i < k <= |lines| && SelfClosed(lines[i])
    ensures DepthAfter(lines, k, false) == DepthAfter(lines[..i] + lines[i + 1..], k - 1, false)
  {
    var rest := lines[..i] + lines[i + 1..];
    var m, r := Marks(lines, false), Marks(rest, false);
    SelfClosedPlain(lines[i]);
    assert r == m[..i] + m[i + 1..] by {
      forall j | 0 <= j < |r|
        ensures r[j] == (m[..i] + m[i + 1..])[j]
      {
        if j < i {
          assert rest[j] == lines[j];
        } else {
          assert rest[j] == lines[j + 1];
        }
      }
    }
    DepthWithoutPlain(m, i, k);
  }

  /** So every line after a self-closed comment comes out as it would
      without the comment: a one-line doc comment does not stop the
      declarations after it from being expanded. */
  lemma SelfClosedCommentTransparent(lines: seq<string>, i: nat, k: nat)
    requires i < k < |lines| && SelfClosed(lines[i])
    ensures OutputLine(lines, k, false) == OutputLine(lines[..i] + lines[i + 1..], k - 1, false)
  {
    var rest := lines[..i] + lines[i + 1..];
    SelfClosedDepth(lines, i, k + 1);
    assert rest[k - 1] == lines[k];
    SameOutput(lines, k, rest, k - 1);
  }

  /** A line at the same depth comes out the same. */
  lemma SameOutput(a: seq<string>, ka: nat, b: seq<string>, kb: nat)
    requires ka < |a| && kb < |b| && a[ka] == b[kb]
    requires DepthAfter(a, ka + 1, false) == DepthAfter(b, kb + 1, false)
    ensures OutputLine(a, ka, false) == OutputLine(b, kb, false)
  {
  }

  // ---------------------------------------------------------------------------
  // The event list round trip

  predicate IdentChar(c: char) {
    ('a' <= c <= 'z') || ('A' <= c <= 'Z') || ('0' <= c <= '9') || c == '_' || c == '$'
  }

  /** Identifier text: letters, digits, '_' and '$' only. */
  predicate Ident(s: string) {
    forall i :: 0 <= i < |s| ==> IdentChar(s[i])
  }

  /** The comma-separated pieces of a quoted list: every event but the first
      keeps the space that followed the comma. */
  function Pieces(events: seq<string>, first: string): (ps: seq<string>)
    ensures |ps| == |events|
    ensures forall k :: 0 <= k < |events| ==> ps[k] == (if k == 0 then first else " ") + "'" + events[k] + "'"
  {
    seq(|events|, k requires 0 <= k < |events| => (if k == 0 then first else " ") + "'" + events[k] + "'")
  }

  lemma {:induction false} JoinPieces(events: seq<string>, first: string)
    requires |events| >= 1
    ensures Join(Pieces(events, first), ",") == first + QuotedList(events)
    decreases |events|
  {
    var ps := Pieces(events, first);
    var q := Quoted(events);
    if |events| >= 2 {
      JoinPieces(events[1..], " ");
      assert ps[1..] == Pieces(events[1..], " ");
      assert q[1..] == Quoted(events[1..]);
      assert Join(ps, ",") == ps[0] + "," + (" " + QuotedList(events[1..]));
      assert QuotedList(events) == q[0] + ", " + QuotedList(events[1..]);
    }
  }

  lemma {:induction false} NamesOfPieces(events: seq<string>, first: string)
    requires first == "" || first == " "
    requires forall k :: 0 <= k < |events| ==> Ident(events[k])
    ensures EventNames(Pieces(events, first)) == events
    decreases |events|
  {
    if events != [] {
      var ps := Pieces(events, first);
      var piece := "'" + events[0] + "'";
      assert ps[0] == first + piece;
      if first == "" {
        assert first + piece == piece;
        TrimOfTrimmed(piece);
      } else {
        assert first + piece == first + piece + "";
        TrimPadded(first, piece, "");
      }
      assert Unquote(piece) == events[0];
      NamesOfPieces(events[1..], " ");
      assert ps[1..] == Pieces(events[1..], " ");
    }
  }

  /** The events the generator writes into a quoted list are the events it
      reads back from one: for identifier names, reading `'e1', 'e2'` gives
      `e1` and `e2` in order, and an empty list gives none. */
  lemma EventsRoundTrip(events: seq<string>)
    requires forall k :: 0 <= k < |events| ==> Ident(events[k])
    ensures Events(QuotedList(events)) == events
  {
    if events == [] {
      assert Split("", ',') == [""] by {
        IndexOfNone("", [','], 0);
      }
    } else {
      var ps := Pieces(events, "");
      JoinPieces(events, "");
      assert "" + QuotedList(events) == QuotedList(events);
      forall k | 0 <= k < |ps|
        ensures ',' !in ps[k]
      {
        var e := events[k];
        assert ps[k] == (if k == 0 then "" else " ") + "'" + e + "'";
        assert forall i :: 0 <= i < |e| ==> e[i] != ',' by {
          forall i | 0 <= i < |e| ensures e[i] != ',' {
            assert IdentChar(e[i]);
          }
        }
      }
      JoinSplit(ps, ',');
      NamesOfPieces(events, "");
    }
  }

  // ---------------------------------------------------------------------------
  // The declaration round trip

  /** A type or initializer text the cuts leave whole: not blank at either
      end, and free of '=', ';' and '?'. */
  predicate Clean(s: string) {
    s != [] && !IsSpace(s[0]) && !IsSpace(s[|s| - 1]) && '=' !in s && ';' !in s && '?' !in s
  }

  /** A declaration as written in the source: indent, events, key, whether
      the key is optional, the explicit type and the initializer. */
  datatype Source = Source(indent: string, events: seq<string>, key: string, optional: bool,
                           typ: Option<string>, init: Option<string>)

  /** Declarations the generator reads as intended: identifier key and
      events, an explicit type on optional keys, clean type and initializer
      text, and no ':' in an initializer without a type (the first ':' after
      the parenthesis is taken as the type's). */
  predicate WellFormed(src: Source) {
    (forall i :: 0 <= i < |src.indent| ==> IsSpace(src.indent[i]))
    && (forall k :: 0 <= k < |src.events| ==> Ident(src.events[k]))
    && src.key != [] && Ident(src.key)
    && (src.optional ==> src.typ.Some?)
    && (src.typ.Some? ==> Clean(src.typ.value))
    && (src.init.Some? ==> Clean(src.init.value) && (src.typ.None? ==> ':' !in src.init.value))
  }

  function OptionalPart(src: Source): string {
    if src.optional then "?" else ""
  }

  function TypePart(src: Source): string {
    if src.typ.Some? then ": " + src.typ.value else ""
  }

  function InitPart(src: Source): string {
    if src.init.Some? then " = " + src.init.value else ""
  }

  /** The parts of a declaration line, in order. */
  function Parts(src: Source): seq<string> {
    [src.indent, Marker, QuotedList(src.events), ") ", src.key, OptionalPart(src), TypePart(src), InitPart(src), ";"]
  }

  /** Texts written one after the other. */
  function Concat(ps: seq<string>): string {
    if ps == [] then "" else ps[0] + Concat(ps[1..])
  }

  /** The declaration line. */
  function Print(src: Source): string {
    Concat(Parts(src))
  }

  /** What the declaration means: its key, events and initializer, and the
      explicit type (with ` | undefined` for an optional key) or the type
      inferred from the initializer. */
  function Declared(src: Source): Declaration {
    var typ :=
      if src.typ.Some? then
        var e := ": " + src.typ.value;
        if Contains(e, "| undefined") then e else e + (if src.optional then " | undefined" else "")
      else if src.init.Some? then TypeOf("", false, false, src.init.value)
      else ": any";
    Declaration(src.key, typ, src.events, src.init)
  }

  /** The first occurrence of a pattern whose first character does not occur
      before it. */
  lemma FirstAt(s: string, pat: string, from: int, k: int)
    requires pat != [] && 0 <= from <= k && MatchAt(s, pat, k)
    requires forall i :: from <= i < k ==> s[i] != pat[0]
    ensures IndexOf(s, pat, from) == k
  {
    forall i | from <= i < k
      ensures !MatchAt(s, pat, i)
    {
      if i + |pat| <= |s| {
        assert s[i..i + |pat|][0] == s[i];
      }
    }
    IndexOfIs(s, pat, from, k);
  }

  /** No occurrence when the pattern's first character does not occur. */
  lemma NoneAt(s: string, pat: string, from: int)
    requires pat != [] && 0 <= from
    requires forall i :: from <= i < |s| ==> s[i] != pat[0]
    ensures IndexOf(s, pat, from) == -1
  {
    forall i | from <= i
      ensures !MatchAt(s, pat, i)
    {
      if i + |pat| <= |s| {
        assert s[i..i + |pat|][0] == s[i];
      }
    }
    IndexOfNone(s, pat, from);
  }

  /** A string cut after its first part. */
  lemma Cut(p: string, q: string)
    ensures (p + q)[..|p|] == p && (p + q)[|p|..] == q
  {
  }

  /** Offsets in a printed declaration: the closing parenthesis, the end of
      the key, and the starts of the type, the initializer and the ';'. */
  function CloseAt(src: Source): nat {
    |src.indent| + |Marker| + |QuotedList(src.events)|
  }

  function KeyEnd(src: Source): nat {
    CloseAt(src) + 2 + |src.key|
  }

  function TypeAt(src: Source): nat {
    KeyEnd(src) + |OptionalPart(src)|
  }

  function InitAt(src: Source): nat {
    TypeAt(src) + |TypePart(src)|
  }

  function SemiAt(src: Source): nat {
    InitAt(src) + |InitPart(src)|
  }

  /** Concatenation splits at any part boundary. */
  lemma {:induction false} ConcatSplit(ps: seq<string>, i: nat)
    requires i <= |ps|
    ensures Concat(ps) == Concat(ps[..i]) + Concat(ps[i..])
    decreases i
  {
    if i == 0 {
      assert ps[..0] == [] && ps[0..] == ps;
    } else {
      ConcatSplit(ps[1..], i - 1);
      assert ps[..i][0] == ps[0] && ps[..i][1..] == ps[1..][..i - 1];
      assert ps[1..][i - 1..] == ps[i..];
    }
  }

  /** The parts up to `i + 1` are one part longer than those up to `i`. */
  lemma PrefixWidth(ps: seq<string>, i: nat)
    requires i < |ps|
    ensures |Concat(ps[..i + 1])| == |Concat(ps[..i])| + |ps[i]|
  {
    ConcatSplit(ps[..i + 1], i);
    assert ps[..i + 1][..i] == ps[..i];
    assert ps[..i + 1][i..] == [ps[i]];
    assert Concat([ps[i]]) == ps[i] by {
      assert [ps[i]][1..] == [];
    }
  }

  /** Part `i` sits where the parts before it end. */
  lemma PartAt(ps: seq<string>, i: nat, o: nat)
    requires i < |ps| && o == |Concat(ps[..i])|
    ensures o + |ps[i]| <= |Concat(ps)| && Concat(ps)[o..o + |ps[i]|] == ps[i]
  {
    ConcatSplit(ps, i);
    assert Concat(ps[i..]) == ps[i] + Concat(ps[i + 1..]) by {
      assert ps[i..][0] == ps[i] && ps[i..][1..] == ps[i + 1..];
    }
    Piece(Concat(ps), o, ps[i], Concat(ps[i + 1..]));
  }

  /** Where each part of a printed declaration ends. */
  lemma PrintOffsets(src: Source)
    ensures var ps := Parts(src);
            |Concat(ps[..0])| == 0
            && |Concat(ps[..1])| == |src.indent|
            && |Concat(ps[..2])| == |src.indent| + |Marker|
            && |Concat(ps[..3])| == CloseAt(src)
            && |Concat(ps[..4])| == CloseAt(src) + 2
            && |Concat(ps[..5])| == KeyEnd(src)
            && |Concat(ps[..6])| == TypeAt(src)
            && |Concat(ps[..7])| == InitAt(src)
            && |Concat(ps[..8])| == SemiAt(src)
            && |Print(src)| == SemiAt(src) + 1
  {
    FrontOffsets(src);
    BackOffsets(src);
  }

  lemma FrontOffsets(src: Source)
    ensures var ps := Parts(src);
            |Concat(ps[..0])| == 0
            && |Concat(ps[..1])| == |src.indent|
            && |Concat(ps[..2])| == |src.indent| + |Marker|
            && |Concat(ps[..3])| == CloseAt(src)
            && |Concat(ps[..4])| == CloseAt(src) + 2
  {
    var ps := Parts(src);
    assert ps[..0] == [];
    PrefixWidth(ps, 0);
    PrefixWidth(ps, 1);
    PrefixWidth(ps, 2);
    PrefixWidth(ps, 3);
  }

  lemma BackOffsets(src: Source)
    ensures var ps := Parts(src);
            |Concat(ps[..5])| == KeyEnd(src)
            && |Concat(ps[..6])| == TypeAt(src)
            && |Concat(ps[..7])| == InitAt(src)
            && |Concat(ps[..8])| == SemiAt(src)
            && |Print(src)| == SemiAt(src) + 1
  {
    var ps := Parts(src);
    FrontOffsets(src);
    PrefixWidth(ps, 4);
    PrefixWidth(ps, 5);
    PrefixWidth(ps, 6);
    PrefixWidth(ps, 7);
    PrefixWidth(ps, 8);
    assert ps[..9] == ps;
  }

  /** Where the indent and the marker sit in a printed declaration. */
  lemma PrintIndent(src: Source)
    ensures var line := Print(src);
            |line| == SemiAt(src) + 1
            && line[..|src.indent|] == src.indent
            && line[|src.indent|..|src.indent| + |Marker|] == Marker
  {
    var ps := Parts(src);
    PrintOffsets(src);
    PartAt(ps, 0, 0);
    PartAt(ps, 1, |src.indent|);
  }

  /** Where the events and the key sit in a printed declaration. */
  lemma PrintFront(src: Source)
    ensures var line := Print(src);
            |line| == SemiAt(src) + 1
            && line[|src.indent| + |Marker|..CloseAt(src)] == QuotedList(src.events)
            && line[CloseAt(src)..CloseAt(src) + 2] == ") "
            && line[CloseAt(src) + 2..KeyEnd(src)] == src.key
  {
    var ps := Parts(src);
    PrintOffsets(src);
    PartAt(ps, 2, |src.indent| + |Marker|);
    PartAt(ps, 3, CloseAt(src));
    PartAt(ps, 4, CloseAt(src) + 2);
  }

  /** Where the parts after the key sit in a printed declaration. */
  lemma PrintBack(src: Source)
    ensures var line := Print(src);
            |line| == SemiAt(src) + 1
            && line[KeyEnd(src)..TypeAt(src)] == OptionalPart(src)
            && line[TypeAt(src)..InitAt(src)] == TypePart(src)
            && line[InitAt(src)..SemiAt(src)] == InitPart(src)
            && line[SemiAt(src)] == ';'
  {
    var ps := Parts(src);
    var line := Print(src);
    PrintOffsets(src);
    PartAt(ps, 5, KeyEnd(src));
    PartAt(ps, 6, TypeAt(src));
    PartAt(ps, 7, InitAt(src));
    PartAt(ps, 8, SemiAt(src));
    assert line[SemiAt(src)] == line[SemiAt(src)..SemiAt(src) + 1][0];
  }

  /** A part found at the front of a suffix sits at that suffix's offset. */
  lemma Piece(line: string, at: nat, p: string, rest: string)
    requires at <= |line| && line[at..] == p + rest
    ensures at + |p| <= |line| && line[at..at + |p|] == p && line[at + |p|..] == rest
  {
    assert line[at..at + |p|] == line[at..][..|p|];
    assert line[at + |p|..] == line[at..][|p|..];
  }

  /** Text free of a character has none of it at any index of a slice equal to it. */
  lemma Avoids(line: string, lo: nat, hi: nat, piece: string, c: char)
    requires lo <= hi <= |line| && line[lo..hi] == piece && c !in piece
    ensures forall i :: lo <= i < hi ==> line[i] != c
  {
    forall i | lo <= i < hi
      ensures line[i] != c
    {
      assert line[i] == piece[i - lo];
    }
  }

  lemma IdentAvoids(s: string, c: char)
    requires Ident(s) && !IdentChar(c)
    ensures c !in s
  {
    assert forall i :: 0 <= i < |s| ==> s[i] != c;
  }

  /** A quoted list holds identifier characters, quotes, commas and spaces only. */
  lemma {:induction false} QuotedAvoids(events: seq<string>, c: char)
    requires forall k :: 0 <= k < |events| ==> Ident(events[k])
    requires !IdentChar(c) && c != '\'' && c != ',' && c != ' '
    ensures c !in QuotedList(events)
    decreases |events|
  {
    if |events| >= 1 {
      IdentAvoids(events[0], c);
      assert Quoted(events)[0] == "'" + events[0] + "'";
    }
    if |events| >= 2 {
      QuotedAvoids(events[1..], c);
      assert Quoted(events)[1..] == Quoted(events[1..]);
    }
  }

  /** The cut positions the generator finds in a printed declaration. */
  function PrintedPositions(src: Source): Positions {
    var assignIdx := if src.init.Some? then InitAt(src) + 1 else -1;
    Positions(|src.indent|, CloseAt(src), SemiAt(src), assignIdx, false,
              if src.init.Some? then InitAt(src) + 1 else SemiAt(src),
              if src.typ.Some? then TypeAt(src) else -1,
              if src.optional then KeyEnd(src) else -1)
  }

  lemma ReactiveAt(src: Source)
    requires WellFormed(src)
    ensures IndexOf(Print(src), Marker, 0) == |src.indent|
  {
    var line := Print(src);
    PrintIndent(src);
    assert !IsSpace('@');
    Avoids(line, 0, |src.indent|, src.indent, '@');
    FirstAt(line, Marker, 0, |src.indent|);
  }

  lemma CloseParenAt(src: Source)
    requires WellFormed(src)
    ensures IndexOf(Print(src), ")", |src.indent|) == CloseAt(src)
  {
    var line := Print(src);
    var a := |src.indent| + |Marker|;
    PrintIndent(src);
    PrintFront(src);
    assert ')' !in Marker;
    Avoids(line, |src.indent|, a, Marker, ')');
    QuotedAvoids(src.events, ')');
    Avoids(line, a, CloseAt(src), QuotedList(src.events), ')');
    assert line[CloseAt(src)..CloseAt(src) + 1] == ")" by {
      assert line[CloseAt(src)..CloseAt(src) + 1] == line[CloseAt(src)..CloseAt(src) + 2][..1];
    }
    FirstAt(line, ")", |src.indent|, CloseAt(src));
  }

  /** Every character of a printed declaration up to the type, for a
      character that is no identifier character, quote, comma, space,
      parenthesis, '?' or marker character. */
  lemma FrontAvoids(src: Source, c: char)
    requires WellFormed(src)
    requires !IdentChar(c) && !IsSpace(c) && c !in "'," && c !in Marker && c != ')' && c != '?'
    ensures TypeAt(src) <= |Print(src)| && forall i :: 0 <= i < TypeAt(src) ==> Print(src)[i] != c
  {
    var line := Print(src);
    HeadAvoids(src, c);
    PrintFront(src);
    PrintBack(src);
    Avoids(line, CloseAt(src), CloseAt(src) + 2, ") ", c);
    IdentAvoids(src.key, c);
    Avoids(line, CloseAt(src) + 2, KeyEnd(src), src.key, c);
    Avoids(line, KeyEnd(src), TypeAt(src), OptionalPart(src), c);
  }

  /** The indent, marker and events of a printed declaration avoid such a character too. */
  lemma HeadAvoids(src: Source, c: char)
    requires WellFormed(src)
    requires !IdentChar(c) && !IsSpace(c) && c !in "'," && c !in Marker
    ensures CloseAt(src) <= |Print(src)| && forall i :: 0 <= i < CloseAt(src) ==> Print(src)[i] != c
  {
    var line := Print(src);
    var a := |src.indent| + |Marker|;
    PrintIndent(src);
    PrintFront(src);
    assert c !in src.indent;
    Avoids(line, 0, |src.indent|, src.indent, c);
    Avoids(line, |src.indent|, a, Marker, c);
    QuotedAvoids(src.events, c);
    Avoids(line, a, CloseAt(src), QuotedList(src.events), c);
  }

  /** The last '=' is the initializer's, or there is none. */
  lemma AssignAt(src: Source)
    requires WellFormed(src)
    ensures LastIndexOf(Print(src), '=') == if src.init.Some? then InitAt(src) + 1 else -1
  {
    var line := Print(src);
    PrintBack(src);
    if src.init.Some? {
      var v := src.init.value;
      assert line[InitAt(src) + 3..SemiAt(src)] == v by {
        assert line[InitAt(src) + 3..SemiAt(src)] == line[InitAt(src)..SemiAt(src)][3..];
      }
      Avoids(line, InitAt(src) + 3, SemiAt(src), v, '=');
      assert line[InitAt(src) + 1] == line[InitAt(src)..SemiAt(src)][1];
      assert line[InitAt(src) + 2] == line[InitAt(src)..SemiAt(src)][2];
      LastIndexOfIs(line, '=', InitAt(src) + 1);
    } else {
      FrontAvoids(src, '=');
      if src.typ.Some? {
        assert '=' !in TypePart(src);
      }
      Avoids(line, TypeAt(src), InitAt(src), TypePart(src), '=');
      LastIndexOfIs(line, '=', -1);
    }
  }

  /** The character after the initializer's '=' is a space, so the
      declaration is never read as a function type. */
  lemma NotFunctionType(src: Source)
    requires WellFormed(src) && src.init.Some?
    ensures IndexOf(Print(src), ">", InitAt(src) + 1) != InitAt(src) + 2
  {
    var line := Print(src);
    PrintBack(src);
    assert line[InitAt(src) + 2] == line[InitAt(src)..SemiAt(src)][2];
  }

  /** The first ':' after the parenthesis opens the type, or there is none. */
  lemma ColonAt(src: Source)
    requires WellFormed(src)
    ensures IndexOf(Print(src), ":", CloseAt(src)) == if src.typ.Some? then TypeAt(src) else -1
  {
    var line := Print(src);
    PrintBack(src);
    FrontAvoids(src, ':');
    if src.typ.Some? {
      assert TypePart(src) == ": " + src.typ.value;
      assert line[TypeAt(src)..TypeAt(src) + 1] == line[TypeAt(src)..InitAt(src)][..1];
      FirstAt(line, ":", CloseAt(src), TypeAt(src));
    } else {
      assert ':' !in InitPart(src);
      Avoids(line, InitAt(src), SemiAt(src), InitPart(src), ':');
      NoneAt(line, ":", CloseAt(src));
    }
  }

  /** The first '?:' after the parenthesis ends an optional key, or there is none. */
  lemma OptionalAt(src: Source)
    requires WellFormed(src)
    ensures IndexOf(Print(src), "?:", CloseAt(src)) == if src.optional then KeyEnd(src) else -1
  {
    var line := Print(src);
    PrintFront(src);
    PrintBack(src);
    assert '?' !in ") ";
    Avoids(line, CloseAt(src), CloseAt(src) + 2, ") ", '?');
    IdentAvoids(src.key, '?');
    Avoids(line, CloseAt(src) + 2, KeyEnd(src), src.key, '?');
    if src.optional {
      assert line[KeyEnd(src)] == line[KeyEnd(src)..TypeAt(src)][0];
      assert line[TypeAt(src)] == line[TypeAt(src)..InitAt(src)][0];
      assert line[KeyEnd(src)..KeyEnd(src) + 2] == "?:";
      FirstAt(line, "?:", CloseAt(src), KeyEnd(src));
    } else {
      assert '?' !in TypePart(src);
      Avoids(line, TypeAt(src), InitAt(src), TypePart(src), '?');
      assert '?' !in InitPart(src);
      Avoids(line, InitAt(src), SemiAt(src), InitPart(src), '?');
      NoneAt(line, "?:", CloseAt(src));
    }
  }

  /** The generator finds a printed declaration's cuts where the printer put them. */
  lemma ScanPrint(src: Source)
    requires WellFormed(src)
    ensures Scan(Print(src)) == PrintedPositions(src)
  {
    var line := Print(src);
    PrintBack(src);
    ReactiveAt(src);
    CloseParenAt(src);
    LastIndexOfIs(line, ';', SemiAt(src));
    AssignAt(src);
    if src.init.Some? {
      NotFunctionType(src);
    }
    ColonAt(src);
    OptionalAt(src);
  }

  /** Adjacent slices make one slice. */
  lemma Adjacent(line: string, a: nat, b: nat, c: nat)
    requires a <= b <= c <= |line|
    ensures line[a..c] == line[a..b] + line[b..c]
  {
  }

  /** A slice of text padded with white space trims to the text. */
  lemma TrimmedSlice(line: string, a: nat, b: nat, pre: string, mid: string, post: string)
    requires a <= b <= |line| && line[a..b] == pre + mid + post
    requires forall i :: 0 <= i < |pre| ==> IsSpace(pre[i])
    requires forall i :: 0 <= i < |post| ==> IsSpace(post[i])
    requires mid != [] && !IsSpace(mid[0]) && !IsSpace(mid[|mid| - 1])
    ensures Trim(Substring(line, a, b)) == mid
  {
    TrimPadded(pre, mid, post);
  }

  /** Where the key's text ends for the generator: at the end of the key,
      or one space later when the initializer's '=' is the next cut. */
  function KeyCut(src: Source): nat {
    if src.optional || src.typ.Some? || src.init.None? then KeyEnd(src) else KeyEnd(src) + 1
  }

  /** The key read between the parenthesis and the next cut. */
  lemma KeyRead(src: Source)
    requires WellFormed(src)
    ensures KeyText(Print(src), PrintedPositions(src)) == src.key
  {
    KeyCutIs(src);
    KeyTextRead(src);
  }

  /** The generator's cut after the key is where the printer ended it. */
  lemma KeyCutIs(src: Source)
    requires WellFormed(src)
    ensures var p := PrintedPositions(src);
            (if p.optional >= 0 then p.optional else if p.colon >= 0 then p.colon else p.assignSemiOrEOL) == KeyCut(src)
  {
  }

  lemma KeyTextRead(src: Source)
    requires WellFormed(src)
    ensures Trim(Substring(Print(src), CloseAt(src) + 1, KeyCut(src))) == src.key
  {
    KeySlice(src);
    if src.optional || src.typ.Some? || src.init.None? {
      KeyAlone(Print(src), CloseAt(src) + 1, KeyEnd(src), src.key);
    } else {
      KeyThenSpace(src);
      KeySpaced(Print(src), CloseAt(src) + 1, KeyEnd(src), src.key);
    }
  }

  /** The key and the space before it, as printed. */
  lemma KeySlice(src: Source)
    requires WellFormed(src)
    ensures KeyEnd(src) < |Print(src)| && Print(src)[CloseAt(src) + 1..KeyEnd(src)] == " " + src.key
    ensures !IsSpace(src.key[0]) && !IsSpace(src.key[|src.key| - 1])
  {
    var line := Print(src);
    var ke := KeyEnd(src);
    PrintFront(src);
    assert line[CloseAt(src) + 1..CloseAt(src) + 2] == " " by {
      assert line[CloseAt(src) + 1..CloseAt(src) + 2] == line[CloseAt(src)..CloseAt(src) + 2][1..];
    }
    Adjacent(line, CloseAt(src) + 1, CloseAt(src) + 2, ke);
    assert IdentChar(src.key[0]) && IdentChar(src.key[|src.key| - 1]);
  }

  lemma KeyAlone(line: string, a: nat, b: nat, key: string)
    requires a <= b <= |line| && line[a..b] == " " + key
    requires key != [] && !IsSpace(key[0]) && !IsSpace(key[|key| - 1])
    ensures Trim(Substring(line, a, b)) == key
  {
    assert line[a..b] == " " + key + "";
    TrimmedSlice(line, a, b, " ", key, "");
  }

  lemma KeySpaced(line: string, a: nat, b: nat, key: string)
    requires a <= b < |line| && line[a..b] == " " + key && line[b..b + 1] == " "
    requires key != [] && !IsSpace(key[0]) && !IsSpace(key[|key| - 1])
    ensures Trim(Substring(line, a, b + 1)) == key
  {
    Adjacent(line, a, b, b + 1);
    TrimmedSlice(line, a, b + 1, " ", key, " ");
  }

  /** Without optional mark or type, the key is followed by the initializer's space. */
  lemma KeyThenSpace(src: Source)
    requires WellFormed(src) && !src.optional && src.typ.None? && src.init.Some?
    ensures KeyEnd(src) + 1 <= |Print(src)| && Print(src)[KeyEnd(src)..KeyEnd(src) + 1] == " "
  {
    var line := Print(src);
    PrintBack(src);
    assert line[KeyEnd(src)] == line[InitAt(src)..SemiAt(src)][0];
  }

  /** The explicit type read from the ':' to the next cut. */
  lemma TypeRead(src: Source)
    requires WellFormed(src)
    ensures ExplicitType(Print(src), PrintedPositions(src)) == if src.typ.Some? then ": " + src.typ.value else ""
  {
    if src.typ.Some? {
      ExplicitTypeRead(src);
    }
  }

  lemma ExplicitTypeRead(src: Source)
    requires WellFormed(src) && src.typ.Some?
    ensures Trim(Substring(Print(src), TypeAt(src), if src.init.Some? then InitAt(src) + 1 else SemiAt(src)))
            == ": " + src.typ.value
  {
    var line := Print(src);
    var t := ": " + src.typ.value;
    PrintBack(src);
    assert line[TypeAt(src)..InitAt(src)] == t;
    assert !IsSpace(t[0]) && !IsSpace(t[|t| - 1]);
    if src.init.Some? {
      assert line[InitAt(src)..InitAt(src) + 1] == " " by {
        assert line[InitAt(src)..InitAt(src) + 1] == line[InitAt(src)..SemiAt(src)][..1];
      }
      Adjacent(line, TypeAt(src), InitAt(src), InitAt(src) + 1);
      assert line[TypeAt(src)..InitAt(src) + 1] == "" + t + " ";
      TrimmedSlice(line, TypeAt(src), InitAt(src) + 1, "", t, " ");
    } else {
      assert InitAt(src) == SemiAt(src);
      assert line[TypeAt(src)..SemiAt(src)] == "" + t + "";
      TrimmedSlice(line, TypeAt(src), SemiAt(src), "", t, "");
    }
  }

  /** The value read between the last cut and the ';': the initializer, or
      the ';' itself when there is none (the two cuts then coincide). */
  lemma ValueRead(src: Source)
    requires WellFormed(src)
    ensures ValueText(Print(src), PrintedPositions(src)) == if src.init.Some? then src.init.value else ";"
  {
    if src.init.Some? {
      InitializerRead(src);
    } else {
      var line := Print(src);
      PrintBack(src);
      assert Substring(line, SemiAt(src) + 1, SemiAt(src)) == ";";
      TrimOfTrimmed(";");
    }
  }

  lemma InitializerRead(src: Source)
    requires WellFormed(src) && src.init.Some?
    ensures Trim(Substring(Print(src), InitAt(src) + 2, SemiAt(src))) == src.init.value
  {
    var line := Print(src);
    var v := src.init.value;
    PrintBack(src);
    assert line[InitAt(src) + 2..SemiAt(src)] == " " + v + "" by {
      assert line[InitAt(src) + 2..SemiAt(src)] == line[InitAt(src)..SemiAt(src)][2..];
    }
    TrimmedSlice(line, InitAt(src) + 2, SemiAt(src), " ", v, "");
  }

  /** Reading a printed declaration gives back what it declares: its key,
      its events in order, its initializer, and its explicit type (with
      ` | undefined` added for an optional key unless already there) or the
      type inferred from its initializer. */
  lemma ParsePrint(src: Source)
    requires WellFormed(src)
    ensures Parse(Print(src)) == Declared(src)
  {
    var line := Print(src);
    var p := PrintedPositions(src);
    ScanPrint(src);
    KeyRead(src);
    ValueRead(src);
    TypeRead(src);
    EventsRead(src);
    DeclaredType(src);
  }

  /** The events read between the marker and the parenthesis. */
  lemma EventsRead(src: Source)
    requires WellFormed(src)
    ensures Events(Substring(Print(src), |src.indent| + |Marker|, CloseAt(src))) == src.events
  {
    PrintFront(src);
    EventsRoundTrip(src.events);
  }

  /** The type rules applied to what is read back give the declared type. */
  lemma DeclaredType(src: Source)
    requires WellFormed(src)
    ensures TypeOf(if src.typ.Some? then ": " + src.typ.value else "", false, src.optional,
                   if src.init.Some? then src.init.value else ";")
            == Declared(src).typ
  {
    if src.typ.None? && src.init.None? {
      assert !ParsesAsNumber(";");
    }
  }

  // ---------------------------------------------------------------------------
  // What an expansion starts with, and the one-line comment

  lemma JoinStarts(parts: seq<string>, sep: string)
    requires |parts| >= 1
    ensures StartsWith(Join(parts, sep), parts[0])
  {
    if |parts| > 1 {
      assert Join(parts, sep) == parts[0] + (sep + Join(parts[1..], sep));
    }
  }

  /** The rendered field line, under an indent of white space, is kept
      and opens with the backing field's name. */
  lemma FieldLineIndented(d: Declaration, indent: string)
    requires forall i :: 0 <= i < |indent| ==> IsSpace(indent[i])
    ensures StartsWith(IndentLine(indent, FieldLine(d)), indent + "private _" + d.key)
  {
    var first := FieldLine(d);
    var field := indent + "private _" + d.key;
    var rest := d.typ + (if d.initializer.Some? then " = " + d.initializer.value else "") + ";";
    assert first[0] == 'p' && first[|first| - 1] == ';';
    assert indent + first == indent + first + "";
    TrimPadded(indent, first, "");
    assert indent + first == field + rest;
    PrefixStarts(field, rest, indent + first);
  }

  /** An expansion opens with its first indented line. */
  lemma ExpansionStarts(d: Declaration, indent: string)
    requires forall i :: 0 <= i < |indent| ==> IsSpace(indent[i])
    ensures StartsWith(Join(IndentAll(indent, Render(d)), "\n"), indent + "private _" + d.key)
  {
    var parts := IndentAll(indent, Render(d));
    FieldLineIndented(d, indent);
    JoinStarts(parts, "\n");
    StartsTrans(Join(parts, "\n"), parts[0], indent + "private _" + d.key);
  }

  lemma ExpansionIs(line: string, indent: string)
    requires !Untouched(line)
    ensures Expand(line, indent) == Join(IndentAll(indent, Render(Parse(line))), "\n")
  {
  }

  /** An expanded declaration opens with its indented backing field
      `private _key`, declared before the setter and the getter. */
  lemma ExpansionOpensWithField(line: string, indent: string)
    requires !Untouched(line)
    requires forall i :: 0 <= i < |indent| ==> IsSpace(indent[i])
    ensures StartsWith(Expand(line, indent), indent + "private _" + Parse(line).key)
  {
    ExpansionIs(line, indent);
    ExpansionStarts(Parse(line), indent);
  }

  lemma StartsTrans(s: string, a: string, b: string)
    requires StartsWith(s, a) && StartsWith(a, b)
    ensures StartsWith(s, b)
  {
    assert s[..|b|] == a[..|b|];
  }

  lemma PrefixStarts(a: string, b: string, s: string)
    requires StartsWith(s, a + b)
    ensures StartsWith(s, a)
  {
    assert s[..|a|] == (a + b)[..|a|];
  }

  const OneLineComment := "/** doc */"
  const Declaration1 := "@reactive() x = 1;"

  lemma Declaration1Expands()
    ensures !Untouched(Declaration1) && GetIndent(Declaration1) == ""
  {
    var line := Declaration1;
    assert !IsSpace(line[0]);
    assert TrimStart(line) == line;
    assert line[0..10] == Marker;
    FirstAt(line, Marker, 0, 0);
    assert !MatchAt(line, "//", 0);
  }

  lemma OneLineCommentMarks()
    ensures MarkOf(OneLineComment, true) == Opens
    ensures MarkOf(OneLineComment, false) == Plain
  {
    var c := OneLineComment;
    assert !IsSpace(c[0]) && TrimStart(c) == c;
    assert c[..2] == "/*";
    assert MatchAt(c[2..], "*/", 6) by {
      assert c[2..][6..8] == "*/";
    }
    assert Contains(c[2..], "*/");
  }

  lemma Declaration1Marks()
    ensures MarkOf(Declaration1, true) == Plain && MarkOf(Declaration1, false) == Plain
  {
    var l := Declaration1;
    assert !IsSpace(l[0]) && TrimStart(l) == l;
    assert l[0] == '@';
  }

  /** A line the generator expands, with its own indent, opens with that
      indent and the backing field. */
  lemma ExpandLineOpensWithField(line: string)
    requires !Untouched(line)
    ensures StartsWith(ExpandLine(line), GetIndent(line) + "private _" + Parse(line).key)
  {
    ExpansionOpensWithField(line, GetIndent(line));
  }

  lemma StartsApart(s: string, line: string, p: string)
    requires StartsWith(s, p) && p != [] && line != [] && line[0] != p[0]
    ensures s != line
  {
    assert s[0] == p[0];
  }

  /** Without indent, an expansion starts with the letter of `private`. */
  lemma UnindentedExpansionStarts(d: Declaration)
    ensures StartsWith(Join(IndentAll("", Render(d)), "\n"), "p")
  {
    var s := Join(IndentAll("", Render(d)), "\n");
    ExpansionStarts(d, "");
    assert "" + "private _" + d.key == "p" + ("rivate _" + d.key);
    PrefixStarts("p", "rivate _" + d.key, s);
  }

  /** A declaration without indent is changed by its expansion unless it
      already starts like the backing field. */
  lemma ExpandedDiffers(line: string)
    requires !Untouched(line) && GetIndent(line) == "" && line != [] && line[0] != 'p'
    ensures ExpandLine(line) != line
  {
    ExpansionIs(line, "");
    UnindentedExpansionStarts(Parse(line));
    StartsApart(ExpandLine(line), line, "p");
  }

  lemma Declaration1Changes()
    ensures ExpandLine(Declaration1) != Declaration1
  {
    Declaration1Expands();
    assert Declaration1[0] == '@';
    ExpandedDiffers(Declaration1);
  }

  // ---------------------------------------------------------------------------
  // One declaration of the golden test

  /** Line 14 of the golden test's input. */
  const YesLine := "  @reactive() yes = true;"

  /** The block the golden test expects for it (its expected output's lines
      91-102), each line written as the two-space indent and its text, then
      a blank line. */
  const YesExpected: seq<string> := [
    "  " + "private _yes: boolean = true;",
    "  " + "set yes(value: boolean) {",
    "  " + "  const oldValue = this._yes;",
    "  " + "  if (value !== oldValue) {",
    "  " + "    this._yes = value;",
    "  " + ("    this.notifyPropertyListeners(" + "'yes', oldValue, value);"),
    "  " + "  }",
    "  " + "}",
    "  " + "get yes(): boolean {",
    "  " + "  return this._yes;",
    "  " + "}",
    ""]

  /** A character that does not occur in `s` is not found by `indexOf`. */
  lemma AbsentChar(s: string, c: char, from: int)
    requires c !in s
    ensures IndexOf(s, [c], from) == -1
  {
    forall i | from <= i ensures !MatchAt(s, [c], i) {
      if 0 <= i < |s| {
        assert s[i..i + 1] == [s[i]];
        assert s[i] in s;
      }
    }
    IndexOfNone(s, [c], from);
  }

  /** Text with a character other than white space does not trim to nothing. */
  lemma TrimNonBlank(s: string, i: nat)
    requires i < |s| && !IsSpace(s[i])
    ensures Trim(s) != ""
  {
    TrimStartSplits(s);
    var t := TrimStart(s);
    assert t != [];
    TrimEndSplits(t);
  }

  lemma SliceOfConcat(a: string, m: string, b: string)
    ensures (a + m + b)[|a|..|a| + |m|] == m
  {
  }

  /** The pieces of the line that the scan cuts it into. */
  lemma YesPieces()
    ensures YesLine == "  " + Marker + ")" + " yes " + "=" + " true" + ";"
  {
  }

  lemma YesSlices()
    ensures YesLine[2..12] == Marker && YesLine[12..13] == ")"
    ensures YesLine[13..18] == " yes " && YesLine[19..24] == " true" && YesLine[19..] == " true;"
  {
    YesMarkerSlice();
    YesParenSlice();
    YesKeySlice();
    YesValueSlice();
  }

  lemma YesMarkerSlice()
    ensures YesLine[2..12] == Marker
  {
    YesPieces();
    assert YesLine == "  " + Marker + (")" + " yes " + "=" + " true" + ";");
    SliceOfConcat("  ", Marker, ")" + " yes " + "=" + " true" + ";");
  }

  lemma YesParenSlice()
    ensures YesLine[12..13] == ")"
  {
    YesPieces();
    assert YesLine == "  " + Marker + ")" + (" yes " + "=" + " true" + ";");
    SliceOfConcat("  " + Marker, ")", " yes " + "=" + " true" + ";");
  }

  lemma YesKeySlice()
    ensures YesLine[13..18] == " yes "
  {
    YesPieces();
    assert YesLine == "  " + Marker + ")" + " yes " + ("=" + " true" + ";");
    SliceOfConcat("  " + Marker + ")", " yes ", "=" + " true" + ";");
  }

  lemma YesValueSlice()
    ensures YesLine[19..24] == " true" && YesLine[19..] == " true;"
  {
    YesPieces();
    SliceOfConcat("  " + Marker + ")" + " yes " + "=", " true", ";");
    assert YesLine == ("  " + Marker + ")" + " yes " + "=") + " true;";
  }

  lemma YesMarkerAndParen()
    ensures IndexOf(YesLine, Marker, 0) == 2 && IndexOf(YesLine, ")", 2) == 12
  {
    var line := YesLine;
    YesSlices();
    assert line[0] == ' ' && line[1] == ' ';
    assert !MatchAt(line, Marker, 0) by { assert line[0..10][0] == line[0]; }
    assert !MatchAt(line, Marker, 1) by { assert line[1..11][0] == line[1]; }
    IndexOfIs(line, Marker, 0, 2);
    forall i | 2 <= i < 12 ensures !MatchAt(line, ")", i) {
      assert line[i] == Marker[i - 2];
      assert Marker[i - 2] in Marker;
      assert line[i..i + 1] == [line[i]];
    }
    IndexOfIs(line, ")", 2, 12);
  }

  lemma YesLastIndices()
    ensures LastIndexOf(YesLine, ';') == 24 && LastIndexOf(YesLine, '=') == 18
  {
    var line := YesLine;
    YesSlices();
    LastIndexOfIs(line, ';', 24);
    forall i | 18 < i < |line| ensures line[i] != '=' {
      assert line[i] == line[19..][i - 19];
      assert line[19..][i - 19] in " true;";
    }
    LastIndexOfIs(line, '=', 18);
  }

  lemma YesAbsent()
    ensures IndexOf(YesLine, ">", 18) == -1 && IndexOf(YesLine, ":", 12) == -1 && IndexOf(YesLine, "?:", 12) == -1
  {
    YesNoArrow();
    YesNoColon();
    YesNoOptional();
  }

  lemma YesNoArrow()
    ensures IndexOf(YesLine, ">", 18) == -1
  {
    assert '>' !in YesLine;
    AbsentChar(YesLine, '>', 18);
  }

  lemma YesNoColon()
    ensures IndexOf(YesLine, ":", 12) == -1
  {
    assert ':' !in YesLine;
    AbsentChar(YesLine, ':', 12);
  }

  lemma YesNoOptional()
    ensures IndexOf(YesLine, "?:", 12) == -1
  {
    var line := YesLine;
    assert '?' !in line;
    forall i | 12 <= i ensures !MatchAt(line, "?:", i) {
      if 0 <= i < |line| - 1 {
        assert line[i..i + 2][0] == line[i];
        assert line[i] in line;
      }
    }
    IndexOfNone(line, "?:", 12);
  }

  lemma YesScan()
    ensures Scan(YesLine) == Positions(2, 12, 24, 18, false, 18, -1, -1)
  {
    YesMarkerAndParen();
    YesLastIndices();
    YesAbsent();
  }

  lemma YesTrimStart()
    ensures TrimStart(YesLine) == YesLine[2..] && YesLine[2..][0] == '@'
  {
    var line := YesLine;
    assert line == "  " + line[2..];
    assert line[2] == '@';
    TrimStartPadded("  ", line[2..]);
  }

  lemma YesIndent()
    ensures GetIndent(YesLine) == "  "
  {
    YesTrimStart();
    IndentBefore(YesLine, 2);
    YesPieces();
    SliceOfConcat([], "  ", YesLine[2..]);
  }

  /** The golden declaration is expanded, with a two-space indent. */
  lemma YesUntouched()
    ensures !Untouched(YesLine) && GetIndent(YesLine) == "  "
  {
    YesIndent();
    YesMarkerAndParen();
    YesTrimStart();
    NotAComment(TrimStart(YesLine));
  }

  lemma NotAComment(t: string)
    requires t != [] && t[0] == '@'
    ensures IndexOf(t, "//", 0) != 0
  {
    assert !MatchAt(t, "//", 0) by { assert t[0] != '/'; }
  }

  lemma IndentBefore(line: string, n: nat)
    requires n <= |line| && TrimStart(line) == line[n..]
    ensures GetIndent(line) == line[..n]
  {
    var indent := GetIndent(line);
    assert line == indent + line[n..];
    assert |indent| == n;
  }

  /** The key between the parenthesis and the '=', padded by one space each side. */
  lemma PaddedKey(line: string, p: Positions, key: string)
    requires p.optional < 0 && p.colon < 0 && 0 <= p.closeParen + 1 <= p.assignSemiOrEOL <= |line|
    requires key != [] && !IsSpace(key[0]) && !IsSpace(key[|key| - 1])
    requires line[p.closeParen + 1..p.assignSemiOrEOL] == " " + key + " "
    ensures KeyText(line, p) == key
  {
    TrimPadded(" ", key, " ");
  }

  /** The value between the '=' and the ';', after one space. */
  lemma PaddedValue(line: string, p: Positions, value: string)
    requires 0 <= p.assignSemiOrEOL + 1 <= p.semiOrEOL <= |line|
    requires value != [] && !IsSpace(value[0]) && !IsSpace(value[|value| - 1])
    requires line[p.assignSemiOrEOL + 1..p.semiOrEOL] == " " + value
    ensures ValueText(line, p) == value
  {
    assert " " + value == " " + value + "";
    TrimPadded(" ", value, "");
  }

  lemma YesKey()
    ensures KeyText(YesLine, Positions(2, 12, 24, 18, false, 18, -1, -1)) == "yes"
  {
    YesKeySlice();
    PaddedKey(YesLine, Positions(2, 12, 24, 18, false, 18, -1, -1), "yes");
  }

  lemma YesValue()
    ensures ValueText(YesLine, Positions(2, 12, 24, 18, false, 18, -1, -1)) == "true"
  {
    YesValueSlice();
    PaddedValue(YesLine, Positions(2, 12, 24, 18, false, 18, -1, -1), "true");
  }

  lemma YesEvents()
    ensures Events(Substring(YesLine, 2 + |Marker|, 12)) == []
  {
    assert Substring(YesLine, 2 + |Marker|, 12) == "";
    AbsentChar("", ',', 0);
    assert Split("", ',') == [""];
    assert EventNames([""]) == [];
  }

  lemma YesParse()
    ensures Parse(YesLine) == YesDeclaration
  {
    YesScan();
    YesKey();
    YesValue();
    YesEvents();
    assert !ParsesAsNumber("true");
    assert TypeOf("", false, false, "true") == ": boolean";
  }

  /** The declaration the golden line reads as. */
  const YesDeclaration := Declaration("yes", ": boolean", [], Some("true"))

  /** Its accessor lines before indenting; the long notify line is written
      in two pieces. */
  const YesRendered: seq<string> := [
    "private _yes: boolean = true;", "set yes(value: boolean) {", "  const oldValue = this._yes;",
    "  if (value !== oldValue) {", "    this._yes = value;",
    "    this.notifyPropertyListeners(" + "'yes', oldValue, value);",
    "  }", "}", "get yes(): boolean {", "  return this._yes;", "}", ""]

  lemma YesRender()
    ensures Render(YesDeclaration) == YesRendered
  {
    var d := YesDeclaration;
    assert !HasObjectCheck(d.typ) by { assert PrimitiveTypes[2] == d.typ; }
    YesSetterLines();
    YesNotifyLine();
    YesGetterLines();
    assert FieldLine(d) == YesRendered[0];
  }

  lemma YesSetterLines()
    ensures "set " + YesDeclaration.key + "(value" + YesDeclaration.typ + ") {" == YesRendered[1]
    ensures "  const oldValue = this." + ("_" + YesDeclaration.key) + ";" == YesRendered[2]
    ensures "  if (value !== oldValue" + "" + ") {" == YesRendered[3]
    ensures "    this." + ("_" + YesDeclaration.key) + " = value;" == YesRendered[4]
  {
  }

  lemma YesNotifyLine()
    ensures "    this.notifyPropertyListeners('" + YesDeclaration.key + "', oldValue, value);" == YesRendered[5]
  {
  }

  lemma YesGetterLines()
    ensures "get " + YesDeclaration.key + "()" + YesDeclaration.typ + " {" == YesRendered[8]
    ensures "  return this." + ("_" + YesDeclaration.key) + ";" == YesRendered[9]
  {
  }

  /** Indenting lines that each hold a non-blank character at `at[k]`,
      except the blank last one, prefixes each and blanks the last. */
  lemma IndentsKept(indent: string, lines: seq<string>, at: seq<nat>, expected: seq<string>)
    requires |lines| == |expected| == |at| + 1
    requires forall k :: 0 <= k < |at| ==> at[k] < |lines[k]| && !IsSpace(lines[k][at[k]])
    requires forall k :: 0 <= k < |at| ==> expected[k] == indent + lines[k]
    requires Trim(indent + lines[|at|]) == "" && expected[|at|] == ""
    ensures IndentAll(indent, lines) == expected
  {
    forall k | 0 <= k < |at| ensures IndentLine(indent, lines[k]) == expected[k] {
      assert (indent + lines[k])[|indent| + at[k]] == lines[k][at[k]];
      TrimNonBlank(indent + lines[k], |indent| + at[k]);
    }
  }

  lemma YesNonBlank(at: seq<nat>)
    requires at == [0, 0, 2, 2, 4, 4, 2, 0, 0, 2, 0]
    ensures forall k :: 0 <= k < |at| ==> at[k] < |YesRendered[k]| && !IsSpace(YesRendered[k][at[k]])
  {
    assert YesRendered[0][0] == 'p';
    assert YesRendered[1][0] == 's';
    assert YesRendered[2][2] == 'c';
    assert YesRendered[3][2] == 'i';
    assert YesRendered[4][4] == 't';
    assert YesRendered[5][4] == 't';
    assert YesRendered[6][2] == '}';
    assert YesRendered[7][0] == '}';
    assert YesRendered[8][0] == 'g';
    assert YesRendered[9][2] == 'r';
    assert YesRendered[10][0] == '}';
  }

  lemma YesIndented()
    ensures IndentAll("  ", YesRendered) == YesExpected
  {
    var at: seq<nat> := [0, 0, 2, 2, 4, 4, 2, 0, 0, 2, 0];
    YesNonBlank(at);
    assert "  " + YesRendered[11] == "  ";
    assert Trim("  ") == "";
    IndentsKept("  ", YesRendered, at, YesExpected);
  }

  /** The generator turns line 14 of the golden test into exactly the block
      its expected output holds for it. */
  lemma YesExpandsAsExpected()
    ensures ExpandLine(YesLine) == Join(YesExpected, "\n")
  {
    YesUntouched();
    YesParse();
    YesRender();
    YesIndented();
  }

  /** As written, a block comment that closes on its own line leaves the
      counter raised, so the declaration on the next line is kept verbatim;
      with one-line comments left closed, it is expanded. */
  lemma OneLineCommentSuppressesExpansion()
    ensures var lines := [OneLineComment, Declaration1];
            OutputLine(lines, 1, true) == Declaration1
            && OutputLine(lines, 1, false) == ExpandLine(Declaration1)
            && ExpandLine(Declaration1) != Declaration1
  {
    var lines := [OneLineComment, Declaration1];
    OneLineCommentMarks();
    Declaration1Marks();
    assert Marks(lines, true) == [Opens, Plain];
    assert Marks(lines, false) == [Plain, Plain];
    var m := Marks(lines, true);
    assert Depth(m, 1) == 1;
    assert Depth(m, 2) == 1;
    var n := Marks(lines, false);
    assert Depth(n, 1) == 0;
    assert Depth(n, 2) == 0;
    Declaration1Changes();
  }
}
