/** The messages an interactive rewrite commits, and the check that each carries
    exactly one identity. */
module RebaseMessages {
  import opened Git

  const LABEL := "change-id:"

  predicate Space(c: char) {
    c == ' ' || '\t' <= c <= '\r' || c == '\U{00A0}' || c == '\U{FEFF}' || c == '\U{2028}' || c == '\U{2029}'
  }

  function LowerChar(c: char): char {
    if 'A' <= c <= 'Z' then (c as int - 'A' as int + 'a' as int) as char else c
  }

  /** A line that begins with the label, in either case, is a trailer line. */
  predicate IsTrailer(line: string) {
    |line| >= |LABEL| && forall i :: 0 <= i < |LABEL| ==> LowerChar(line[i]) == LABEL[i]
  }

  // Lines: cut at each newline, a carriage return before it included.

  function NewlineAt(s: string): (r: Option<nat>)
    ensures r.Some? ==> r.value < |s| && s[r.value] == '\n' && forall i :: 0 <= i < r.value ==> s[i] != '\n'
    ensures r.None? ==> forall i :: 0 <= i < |s| ==> s[i] != '\n'
  {
    if s == "" then None
    else if s[0] == '\n' then Some(0)
    else
      match NewlineAt(s[1..])
      case None => None
      case Some(i) =>
        assert forall j :: 1 <= j < |s| ==> s[j] == s[1..][j - 1];
        Some(i + 1)
  }

  function DropReturn(line: string): string {
    if line != "" && line[|line| - 1] == '\r' then line[..|line| - 1] else line
  }

  function Lines(s: string): seq<string>
    decreases |s|
  {
    match NewlineAt(s)
    case None => [s]
    case Some(i) => [DropReturn(s[..i])] + Lines(s[i + 1..])
  }

  function Join(lines: seq<string>): string {
    if lines == [] then ""
    else if |lines| == 1 then lines[0]
    else lines[0] + "\n" + Join(lines[1..])
  }

  function WithoutTrailers(lines: seq<string>): seq<string> {
    if lines == [] then []
    else (if IsTrailer(lines[0]) then [] else [lines[0]]) + WithoutTrailers(lines[1..])
  }

  function TrimEnd(s: string): (r: string)
    ensures r <= s && (r != "" ==> !Space(r[|r| - 1]))
  {
    if s != "" && Space(s[|s| - 1]) then TrimEnd(s[..|s| - 1]) else s
  }

  function TrimStart(s: string): (r: string)
    ensures |r| <= |s| && r == s[|s| - |r|..] && (r != "" ==> !Space(r[0]))
  {
    if s != "" && Space(s[0]) then TrimStart(s[1..]) else s
  }

  predicate Dot(c: char) {
    c != '\n' && c != '\r' && c != '\U{2028}' && c != '\U{2029}'
  }

  predicate AllDot(s: string) {
    forall i :: 0 <= i < |s| ==> Dot(s[i])
  }

  /** The last character that a dot matches. */
  function LastDot(s: string): (r: Option<string>)
    ensures match r
            case None => forall i :: 0 <= i < |s| ==> !Dot(s[i])
            case Some(d) => exists i :: 0 <= i < |s| && Dot(s[i]) && d == [s[i]] && forall j :: i < j < |s| ==> !Dot(s[j])
  {
    if s == "" then None
    else if Dot(s[|s| - 1]) then Some([s[|s| - 1]])
    else LastDot(s[..|s| - 1])
  }

  /** The identity one line declares: what follows the label, trimmed. A line of
      nothing but blanks after the label declares a blank. */
  function Declares(line: string): Option<string> {
    if !IsTrailer(line) then None
    else
      var rest := line[|LABEL|..];
      var value := TrimEnd(TrimStart(rest));
      if value == "" then LastDot(rest)
      else if AllDot(value) then Some(value)
      else None
  }

  function Declared(lines: seq<string>): seq<string> {
    if lines == [] then []
    else (if Declares(lines[0]).Some? then [Declares(lines[0]).value] else []) + Declared(lines[1..])
  }

  /** Exactly one identity, and it is the promised one. */
  predicate SingleIdentity(message: string, expected: string) {
    Declared(Lines(message)) == [expected]
  }

  // The two messages.

  function Strip(text: string): string {
    TrimEnd(Join(WithoutTrailers(Lines(text))))
  }

  function WithTrailer(body: string, changeId: string): string {
    body + "\n\n" + ("Change-Id: " + changeId) + "\n"
  }

  predicate OnlyDeclares(declared: seq<string>, changeId: string) {
    forall i :: 0 <= i < |declared| ==> declared[i] == changeId
  }

  /** A message that declares another identity, or nothing but trailers, is refused. */
  method RewordedMessage(text: string, changeId: string) returns (message: Option<string>)
    ensures message.Some? <==>
            OnlyDeclares(Declared(Lines(text)), changeId) && TrimStart(Strip(text)) != ""
    ensures message.Some? ==> message.value == Strip(text) + "\n\nChange-Id: " + changeId + "\n"
    ensures message.Some? && Clean(changeId) ==> SingleIdentity(message.value, changeId)
  {
    var lines := Lines(text);
    var declared := Declared(lines);
    if !OnlyDeclares(declared, changeId) { return None; }
    var body := TrimEnd(Join(WithoutTrailers(lines)));
    if TrimStart(body) == "" { return None; }
    if Clean(changeId) {
      StrippedHasNoTrailer(text);
      TrailerIsTheIdentity(body, changeId);
    }
    TrailerText(body, changeId);
    return Some(WithTrailer(body, changeId));
  }

  datatype Absorbed = Absorbed(squash: bool, message: string)

  function Parts(surviving: string, absorbed: seq<Absorbed>): seq<string> {
    if absorbed == [] then (if Strip(surviving) != "" then [Strip(surviving)] else [])
    else
      var last := absorbed[|absorbed| - 1];
      Parts(surviving, absorbed[..|absorbed| - 1]) +
      if last.squash && Strip(last.message) != "" then [Strip(last.message)] else []
  }

  function JoinParts(parts: seq<string>): string {
    if parts == [] then ""
    else if |parts| == 1 then parts[0]
    else JoinParts(parts[..|parts| - 1]) + "\n\n" + parts[|parts| - 1]
  }

  /** The surviving prose, the prose of what was squashed, and one trailer. */
  method AbsorbedMessage(surviving: string, absorbed: seq<Absorbed>, changeId: string) returns (message: string)
    ensures message == JoinParts(Parts(surviving, absorbed)) + "\n\nChange-Id: " + changeId + "\n"
    ensures Clean(changeId) ==> SingleIdentity(message, changeId)
  {
    var parts := if Strip(surviving) != "" then [Strip(surviving)] else [];
    for i := 0 to |absorbed|
      invariant parts == Parts(surviving, absorbed[..i])
    {
      assert absorbed[..i + 1][..i] == absorbed[..i];
      if !absorbed[i].squash { continue; }
      var prose := Strip(absorbed[i].message);
      if prose != "" { parts := parts + [prose]; }
    }
    assert absorbed[..|absorbed|] == absorbed;
    if Clean(changeId) {
      PartsHaveNoTrailer(surviving, absorbed);
      JoinedHasNoTrailer(parts);
      TrailerIsTheIdentity(JoinParts(parts), changeId);
    }
    TrailerText(JoinParts(parts), changeId);
    message := WithTrailer(JoinParts(parts), changeId);
  }

  lemma {:induction false} TrailerText(body: string, changeId: string)
    ensures WithTrailer(body, changeId) == body + "\n\nChange-Id: " + changeId + "\n"
  {
    assert body + "\n\n" + "Change-Id: " == body + "\n\nChange-Id: ";
  }

  // What of the texts is kept.

  /** Cutting a text into lines and joining them gives it back. */
  lemma {:induction false} LinesJoin(s: string)
    requires '\r' !in s
    ensures Join(Lines(s)) == s
    decreases |s|
  {
    match NewlineAt(s) {
      case None => assert [s][0] == s;
      case Some(i) =>
        var line, rest := s[..i], s[i + 1..];
        LinesJoin(rest);
        assert DropReturn(line) == line;
        assert Lines(s)[1..] == Lines(rest) && Lines(s)[0] == line;
        assert |Lines(rest)| > 0 by { LinesAreLines(rest); }
        assert s == line + "\n" + rest;
    }
  }

  /** Prose without trailers is kept as it is, but for blanks at its end. */
  lemma {:induction false} ProseIsKept(text: string)
    requires '\r' !in text && NoTrailer(text)
    ensures Strip(text) == TrimEnd(text)
  {
    LinesJoin(text);
    NothingDropped(text);
  }

  lemma {:induction false} NothingDropped(text: string)
    requires '\r' !in text && NoTrailer(text)
    ensures WithoutTrailers(Lines(text)) == Lines(text)
    decreases |text|
  {
    assert !TrailerAt(text, 0) && text[0..] == text;
    match NewlineAt(text) {
      case None =>
      case Some(i) =>
        var line, rest := text[..i], text[i + 1..];
        assert DropReturn(line) == line;
        TrailerOfPrefix(text, line);
        forall p | 0 <= p <= |rest| ensures !TrailerAt(rest, p) {
          assert !TrailerAt(text, i + 1 + p);
          assert text[i + 1 + p..] == rest[p..];
          assert p > 0 ==> text[i + 1 + p - 1] == rest[p - 1];
        }
        NothingDropped(rest);
        assert Lines(text)[1..] == Lines(rest) && Lines(text)[0] == line;
    }
  }

  lemma {:induction false} WithoutConcat(a: seq<string>, b: seq<string>)
    ensures WithoutTrailers(a + b) == WithoutTrailers(a) + WithoutTrailers(b)
  {
    if a == [] {
      assert a + b == b;
    } else {
      assert (a + b)[0] == a[0] && (a + b)[1..] == a[1..] + b;
      WithoutConcat(a[1..], b);
    }
  }

  /** A trailer line between two texts is dropped, and nothing else. */
  lemma {:induction false} TrailerLineIsDropped(a: string, line: string, b: string)
    requires OneLine(line) && IsTrailer(line) && line[|line| - 1] != '\r' && (a != "" ==> a[|a| - 1] != '\r')
    ensures WithoutTrailers(Lines(a + "\n" + line + "\n" + b)) == WithoutTrailers(Lines(a)) + WithoutTrailers(Lines(b))
  {
    hide Lines, IsTrailer, WithoutTrailers;
    LinesConcat(a, line);
    LinesConcat(a + "\n" + line, b);
    OneLineIsOneLine(line);
    WithoutConcat(Lines(a) + Lines(line), Lines(b));
    WithoutConcat(Lines(a), Lines(line));
    OnlyATrailer(line);
    assert WithoutTrailers(Lines(a)) + [] == WithoutTrailers(Lines(a));
  }

  lemma {:induction false} OnlyATrailer(line: string)
    requires IsTrailer(line)
    ensures WithoutTrailers([line]) == []
  {
    assert [line][1..] == [];
  }

  /** The surviving prose comes first. */
  lemma {:induction false} SurvivingProseFirst(surviving: string, absorbed: seq<Absorbed>)
    ensures Strip(surviving) <= JoinParts(Parts(surviving, absorbed))
    ensures Strip(surviving) != "" ==> Parts(surviving, absorbed) != []
    ensures (forall i :: 0 <= i < |absorbed| ==> !absorbed[i].squash) ==> JoinParts(Parts(surviving, absorbed)) == Strip(surviving)
  {
    hide Strip;
    if absorbed != [] {
      var rest := absorbed[..|absorbed| - 1];
      SurvivingProseFirst(surviving, rest);
      assert Parts(surviving, rest) + [] == Parts(surviving, rest);
      PartsGrow(surviving, absorbed);
    }
  }

  /** One more absorbed message adds its prose at the end when it was squashed, and
      nothing when it was fixed up. */
  lemma {:induction false} PartsGrow(surviving: string, absorbed: seq<Absorbed>)
    requires absorbed != []
    ensures var before, after, last := JoinParts(Parts(surviving, absorbed[..|absorbed| - 1])), JoinParts(Parts(surviving, absorbed)), absorbed[|absorbed| - 1];
            && (!last.squash ==> after == before)
            && (last.squash ==>
                  var prose := Strip(last.message);
                  after == if prose == "" then before else if Parts(surviving, absorbed[..|absorbed| - 1]) == [] then prose else before + "\n\n" + prose)
  {
    hide Strip;
    var rest, last := Parts(surviving, absorbed[..|absorbed| - 1]), absorbed[|absorbed| - 1];
    assert rest + [] == rest;
    if last.squash && Strip(last.message) != "" {
      assert (rest + [Strip(last.message)])[..|rest|] == rest;
    }
  }

  /** The prose of everything that was squashed is in the message, in order. */
  lemma {:induction false} SquashedProseStays(surviving: string, absorbed: seq<Absorbed>, i: nat)
    requires i < |absorbed| && absorbed[i].squash
    ensures exists before, after: string ::
              JoinParts(Parts(surviving, absorbed)) == before + Strip(absorbed[i].message) + after && JoinParts(Parts(surviving, absorbed[..i])) <= before
  {
    hide Strip, Parts, JoinParts;
    var prose := Strip(absorbed[i].message);
    if i == |absorbed| - 1 {
      PartsGrow(surviving, absorbed);
      var rest, all := JoinParts(Parts(surviving, absorbed[..i])), JoinParts(Parts(surviving, absorbed));
      EmptyParts(surviving, absorbed[..i]);
      if prose == "" {
        assert all == rest + prose + "";
      } else if Parts(surviving, absorbed[..i]) == [] {
        assert all == "" + prose + "";
      } else {
        assert all == (rest + "\n\n") + prose + "";
      }
    } else {
      var fewer := absorbed[..|absorbed| - 1];
      assert fewer[i] == absorbed[i] && fewer[..i] == absorbed[..i];
      SquashedProseStays(surviving, fewer, i);
      PartsGrow(surviving, absorbed);
      EmptyParts(surviving, fewer);
      var before, after: string :| JoinParts(Parts(surviving, fewer)) == before + prose + after && JoinParts(Parts(surviving, absorbed[..i])) <= before;
      var all, last := JoinParts(Parts(surviving, absorbed)), Strip(absorbed[|absorbed| - 1].message);
      if all == JoinParts(Parts(surviving, fewer)) {
      } else if Parts(surviving, fewer) == [] {
        assert before == "" && prose == "";
        assert all == before + prose + last;
      } else {
        assert all == before + prose + (after + "\n\n" + last);
      }
    }
  }

  lemma {:induction false} EmptyParts(surviving: string, absorbed: seq<Absorbed>)
    ensures Parts(surviving, absorbed) == [] ==> JoinParts(Parts(surviving, absorbed)) == ""
  {}

  // Why one identity is left.

  /** An id a trailer can carry: on one line, with no blank at either end. */
  predicate Clean(id: string) {
    id != "" && !Space(id[0]) && !Space(id[|id| - 1]) && AllDot(id)
  }

  /** No line of a text begins with the label. */
  predicate TrailerAt(s: string, p: nat) {
    p <= |s| && (p == 0 || s[p - 1] == '\n') && IsTrailer(s[p..])
  }

  predicate NoTrailer(s: string) {
    forall p :: 0 <= p <= |s| ==> !TrailerAt(s, p)
  }

  lemma {:induction false} PrefixHasNoTrailer(s: string, t: string)
    requires NoTrailer(s) && t <= s
    ensures NoTrailer(t)
  {
    forall p | 0 <= p <= |t| ensures !TrailerAt(t, p) {
      if TrailerAt(t, p) {
        assert !TrailerAt(s, p);
        assert forall i :: 0 <= i < |t| - p ==> s[p..][i] == t[p..][i];
      }
    }
  }

  lemma {:induction false} BeforeNewline(x: string, y: string)
    ensures IsTrailer(x + "\n" + y) ==> IsTrailer(x)
  {
    var s := x + "\n" + y;
    if IsTrailer(s) {
      NoNewlineInTrailer(s);
      assert s[|x|] == '\n';
      assert forall i :: 0 <= i < |x| ==> s[i] == x[i];
    }
  }

  /** Texts joined by a newline have only the lines of each. */
  lemma {:induction false} JoinedByNewline(a: string, b: string)
    requires NoTrailer(a) && NoTrailer(b)
    ensures NoTrailer(a + "\n" + b)
  {
    var s := a + "\n" + b;
    forall p | 0 <= p <= |s| ensures !TrailerAt(s, p) {
      if p <= |a| {
        assert s[p..] == a[p..] + "\n" + b;
        BeforeNewline(a[p..], b);
        assert !TrailerAt(a, p);
        assert p > 0 ==> s[p - 1] == a[p - 1];
      } else {
        var q := p - |a| - 1;
        assert s[p..] == b[q..];
        assert !TrailerAt(b, q);
        assert q > 0 ==> s[p - 1] == b[q - 1];
      }
    }
  }

  lemma {:induction false} NoNewlineInTrailer(s: string)
    requires IsTrailer(s)
    ensures forall i :: 0 <= i < |LABEL| ==> s[i] != '\n'
  {
    forall i | 0 <= i < |LABEL| ensures s[i] != '\n' {
      assert LowerChar(s[i]) == LABEL[i];
      assert LABEL[i] != '\n';
    }
  }

  lemma {:induction false} EmptyHasNoTrailer()
    ensures NoTrailer("")
  {}

  predicate OneLine(s: string) {
    '\n' !in s
  }

  lemma {:induction false} LineHasNoTrailer(s: string)
    requires OneLine(s) && !IsTrailer(s)
    ensures NoTrailer(s)
  {
    forall p | 0 <= p <= |s| ensures !TrailerAt(s, p) {
      if p == 0 { assert s[0..] == s; } else { assert s[p - 1] in s; }
    }
  }

  lemma {:induction false} LinesAreLines(s: string)
    ensures Lines(s) != [] && forall l <- Lines(s) :: OneLine(l)
    decreases |s|
  {
    match NewlineAt(s) {
      case None =>
      case Some(i) => LinesAreLines(s[i + 1..]);
    }
  }

  lemma {:induction false} KeptLinesHaveNoTrailer(lines: seq<string>)
    requires forall l <- lines :: OneLine(l)
    ensures NoTrailer(Join(WithoutTrailers(lines)))
    decreases |lines|
  {
    if lines == [] {
      EmptyHasNoTrailer();
    } else {
      assert lines == [lines[0]] + lines[1..];
      KeptLinesHaveNoTrailer(lines[1..]);
      var rest := WithoutTrailers(lines[1..]);
      if !IsTrailer(lines[0]) {
        LineHasNoTrailer(lines[0]);
        assert ([lines[0]] + rest)[1..] == rest;
        if rest != [] { JoinedByNewline(lines[0], Join(rest)); }
      } else {
        assert [] + rest == rest;
      }
    }
  }

  lemma {:induction false} StrippedHasNoTrailer(text: string)
    ensures NoTrailer(Strip(text)) && (Strip(text) != "" ==> !Space(Strip(text)[|Strip(text)| - 1]))
  {
    LinesAreLines(text);
    KeptLinesHaveNoTrailer(Lines(text));
    PrefixHasNoTrailer(Join(WithoutTrailers(Lines(text))), Strip(text));
  }

  /** A text without trailers that ends in no blank. */
  predicate Prose(s: string) {
    NoTrailer(s) && (s != "" ==> !Space(s[|s| - 1]))
  }

  lemma {:induction false} PartsHaveNoTrailer(surviving: string, absorbed: seq<Absorbed>)
    ensures forall part <- Parts(surviving, absorbed) :: Prose(part) && part != ""
  {
    if absorbed == [] {
      StrippedHasNoTrailer(surviving);
    } else {
      PartsHaveNoTrailer(surviving, absorbed[..|absorbed| - 1]);
      StrippedHasNoTrailer(absorbed[|absorbed| - 1].message);
    }
  }

  lemma {:induction false} JoinedHasNoTrailer(parts: seq<string>)
    requires forall part <- parts :: Prose(part) && part != ""
    ensures Prose(JoinParts(parts))
  {
    if parts == [] {
      EmptyHasNoTrailer();
    } else if |parts| > 1 {
      var rest, last := parts[..|parts| - 1], parts[|parts| - 1];
      assert forall part <- rest :: part in parts;
      assert last in parts;
      JoinedHasNoTrailer(rest);
      EmptyHasNoTrailer();
      JoinedByNewline(JoinParts(rest), "");
      JoinedByNewline(JoinParts(rest) + "\n" + "", last);
      assert JoinParts(parts) == JoinParts(rest) + "\n" + "" + "\n" + last;
      assert JoinParts(parts)[|JoinParts(parts)| - 1] == last[|last| - 1];
    } else {
      assert parts[0] in parts;
    }
  }

  lemma {:induction false} TrailerOfPrefix(s: string, t: string)
    requires t <= s
    ensures IsTrailer(t) ==> IsTrailer(s)
  {}

  /** No line of a text without trailers declares anything. */
  lemma {:induction false} NothingDeclared(s: string)
    requires NoTrailer(s)
    ensures Declared(Lines(s)) == []
    decreases |s|
  {
    match NewlineAt(s) {
      case None =>
        assert !TrailerAt(s, 0);
        assert s[0..] == s;
      case Some(i) =>
        assert !TrailerAt(s, 0);
        assert s[0..] == s;
        TrailerOfPrefix(s, DropReturn(s[..i]));
        var rest := s[i + 1..];
        forall p | 0 <= p <= |rest| ensures !TrailerAt(rest, p) {
          assert !TrailerAt(s, i + 1 + p);
          assert s[i + 1 + p..] == rest[p..];
          assert p > 0 ==> s[i + 1 + p - 1] == rest[p - 1];
        }
        NothingDeclared(rest);
    }
  }

  lemma {:induction false} DeclaredConcat(a: seq<string>, b: seq<string>)
    ensures Declared(a + b) == Declared(a) + Declared(b)
  {
    hide Declares;
    if a == [] {
      assert a + b == b;
    } else {
      assert (a + b)[1..] == a[1..] + b && (a + b)[0] == a[0];
      DeclaredConcat(a[1..], b);
    }
  }

  lemma {:induction false} LinesAt(s: string, i: nat)
    requires i < |s| && s[i] == '\n' && forall j :: 0 <= j < i ==> s[j] != '\n'
    ensures Lines(s) == [DropReturn(s[..i])] + Lines(s[i + 1..])
  {
    assert NewlineAt(s).Some?;
  }

  lemma {:induction false} OneLineIsOneLine(s: string)
    requires OneLine(s)
    ensures Lines(s) == [s]
  {
    assert forall i :: 0 <= i < |s| ==> s[i] in s;
  }

  lemma {:induction false} FirstNewline(a: string, b: string, i: nat)
    requires i <= |a| && (forall j :: 0 <= j < i ==> a[j] != '\n') && (i < |a| ==> a[i] == '\n')
    ensures var s := a + "\n" + b;
            && s[..i] == a[..i]
            && Lines(s) == [DropReturn(a[..i])] + Lines(if i < |a| then a[i + 1..] + "\n" + b else b)
  {
    hide Lines;
    var s := a + "\n" + b;
    assert s[i] == '\n';
    assert forall j :: 0 <= j < i ==> s[j] == a[j];
    LinesAt(s, i);
    assert s[..i] == a[..i];
    assert s[i + 1..] == if i < |a| then a[i + 1..] + "\n" + b else b;
  }

  /** Lines of a text, a newline and another text, when the first ends in no
      carriage return. */
  lemma {:induction false} LinesConcat(a: string, b: string)
    requires a != "" ==> a[|a| - 1] != '\r'
    ensures Lines(a + "\n" + b) == Lines(a) + Lines(b)
    decreases |a|
  {
    hide Lines, NewlineAt;
    var at := NewlineAt(a);
    if at.None? {
      FirstNewline(a, b, |a|);
      OneLineIsOneLine(a);
      assert a[..|a|] == a;
    } else {
      var rest := a[at.value + 1..];
      FirstNewline(a, b, at.value);
      LinesAt(a, at.value);
      LinesConcat(rest, b);
      assert [DropReturn(a[..at.value])] + (Lines(rest) + Lines(b)) == ([DropReturn(a[..at.value])] + Lines(rest)) + Lines(b);
    }
  }

  lemma {:induction false} LabelIsTrailer(id: string)
    ensures IsTrailer("Change-Id: " + id)
    ensures ("Change-Id: " + id)[|LABEL|..] == " " + id
  {
    var line := "Change-Id: " + id;
    assert line[0] == 'C' && line[1] == 'h' && line[2] == 'a' && line[3] == 'n' && line[4] == 'g';
    assert line[5] == 'e' && line[6] == '-' && line[7] == 'I' && line[8] == 'd' && line[9] == ':';
  }

  lemma {:induction false} TrimmedIsItself(id: string)
    requires Clean(id)
    ensures TrimEnd(TrimStart(" " + id)) == id
  {
    assert (" " + id)[1..] == id;
    assert TrimStart(id) == id;
  }

  lemma {:induction false} TrailerDeclares(id: string)
    requires Clean(id)
    ensures Declares("Change-Id: " + id) == Some(id)
    ensures OneLine("Change-Id: " + id) && ("Change-Id: " + id)[|"Change-Id: " + id| - 1] != '\r'
  {
    hide IsTrailer, TrimStart, TrimEnd;
    LabelIsTrailer(id);
    TrimmedIsItself(id);
    var head, line := "Change-Id: ", "Change-Id: " + id;
    assert |head| == 11 && '\n' !in head;
    forall i | 0 <= i < |line| ensures line[i] != '\n' {
      if i >= 11 { assert line[i] == id[i - 11] && Dot(id[i - 11]); } else { assert line[i] == head[i] && head[i] in head; }
    }
    assert Dot(id[|id| - 1]);
  }

  /** A body without trailers, then the trailer: one identity, the promised one. */
  lemma {:induction false} TrailerIsTheIdentity(body: string, changeId: string)
    requires Prose(body) && Clean(changeId)
    ensures SingleIdentity(WithTrailer(body, changeId), changeId)
  {
    hide Lines, Declared, Declares, NoTrailer, IsTrailer;
    var line := "Change-Id: " + changeId;
    TrailerDeclares(changeId);
    NothingDeclared(body);
    EmptyHasNoTrailer();
    NothingDeclared("");
    MessageLines(body, line);
    OneDeclared(line);
    DeclaredConcat(Lines(body), Lines("") + ([line] + Lines("")));
    DeclaredConcat(Lines(""), [line] + Lines(""));
    DeclaredConcat([line], Lines(""));
  }

  lemma {:induction false} MessageLines(body: string, line: string)
    requires (body != "" ==> body[|body| - 1] != '\r') && OneLine(line) && line != "" && line[|line| - 1] != '\r'
    ensures Lines(body + "\n\n" + line + "\n") == Lines(body) + (Lines("") + ([line] + Lines("")))
  {
    hide Lines;
    var tail := line + "\n" + "";
    assert body + "\n\n" + line + "\n" == body + "\n" + ("" + "\n" + tail);
    LinesConcat(body, "" + "\n" + tail);
    LinesConcat("", tail);
    LinesConcat(line, "");
    OneLineIsOneLine(line);
  }

  lemma {:induction false} OneDeclared(line: string)
    requires Declares(line).Some?
    ensures Declared([line]) == [Declares(line).value]
  {
    assert [line][1..] == [];
  }
}
