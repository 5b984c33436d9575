/** Reading the answers of a running `git cat-file` out of a stream that arrives
    in arbitrary pieces. */
module GitSession {
  import opened Git

  type Byte = x: int | 0 <= x < 256
  type Bytes = seq<Byte>

  const NEWLINE: Byte := 10
  const SPACE: Byte := 32
  const MISSING: Bytes := [32, 109, 105, 115, 115, 105, 110, 103]

  datatype Command = Info | Contents

  datatype Request = Request(command: Command, expression: nat)

  datatype Response =
    | Absent(expression: nat)
    | Described(expression: nat, oid: Bytes, kind: Bytes, size: nat)
    | Found(expression: nat, oid: Bytes, kind: Bytes, content: Bytes)
    | Rejected(expression: nat)

  // Headers.

  function IndexOfByte(s: Bytes, b: Byte): (r: Option<nat>)
    ensures r.Some? ==> r.value < |s| && s[r.value] == b && forall i :: 0 <= i < r.value ==> s[i] != b
    ensures r.None? ==> forall i :: 0 <= i < |s| ==> s[i] != b
  {
    if s == [] then None
    else if s[0] == b then Some(0)
    else
      match IndexOfByte(s[1..], b)
      case None => None
      case Some(i) =>
        assert forall j :: 1 <= j < |s| ==> s[j] == s[1..][j - 1];
        Some(i + 1)
  }

  predicate IsHex(b: Byte) {
    48 <= b <= 57 || 97 <= b <= 102
  }

  predicate IsDigit(b: Byte) {
    48 <= b <= 57
  }

  predicate NotBlank(b: Byte) {
    b != SPACE && !(9 <= b <= 13)
  }

  function Decimal(s: Bytes): nat
    requires forall i :: 0 <= i < |s| ==> IsDigit(s[i])
  {
    if s == [] then 0
    else
      assert IsDigit(s[|s| - 1]);
      Decimal(s[..|s| - 1]) * 10 + (s[|s| - 1] as int - 48)
  }

  datatype Header = Missing | Object(oid: Bytes, kind: Bytes, size: nat) | Unexpected

  predicate AllBytes(s: Bytes, p: Byte -> bool) {
    s != [] && forall i :: 0 <= i < |s| ==> p(s[i])
  }

  /** A line ending in " missing", or a hex id, a type and a size in digits. */
  function ParseHeader(line: Bytes): Header {
    if |line| >= |MISSING| && line[|line| - |MISSING|..] == MISSING then Missing
    else
      match IndexOfByte(line, SPACE)
      case None => Unexpected
      case Some(first) =>
        var rest := line[first + 1..];
        match IndexOfByte(rest, SPACE)
        case None => Unexpected
        case Some(second) =>
          var oid, kind, size := line[..first], rest[..second], rest[second + 1..];
          if AllBytes(oid, IsHex) && AllBytes(kind, NotBlank) && AllBytes(size, IsDigit) then Object(oid, kind, Decimal(size))
          else Unexpected
  }

  // One answer at the front of a buffer.

  /** An answer to one request, and how many bytes it took. */
  datatype Answer = Answer(response: Response, taken: nat)

  function Front(stdout: Bytes, request: Request): (r: Option<Answer>)
    ensures r.Some? ==> 0 < r.value.taken <= |stdout|
  {
    match IndexOfByte(stdout, NEWLINE)
    case None => None
    case Some(newline) =>
      match ParseHeader(stdout[..newline])
      case Missing => Some(Answer(Absent(request.expression), newline + 1))
      case Unexpected => Some(Answer(Rejected(request.expression), newline + 1))
      case Object(oid, kind, size) =>
        if request.command == Info then Some(Answer(Described(request.expression, oid, kind, size), newline + 1))
        else
          var start := newline + 1;
          var end := start + size;
          if |stdout| <= end then None
          else if stdout[end] != NEWLINE then Some(Answer(Rejected(request.expression), end))
          else Some(Answer(Found(request.expression, oid, kind, stdout[start..end]), end + 1))
  }

  datatype Parsed = Parsed(stdout: Bytes, pending: seq<Request>, answered: seq<Response>)

  /** Every answer a buffer already holds, in the order of the requests. */
  function Drain(stdout: Bytes, pending: seq<Request>): Parsed
    decreases |pending|
  {
    if pending == [] then Parsed(stdout, pending, [])
    else
      match Front(stdout, pending[0])
      case None => Parsed(stdout, pending, [])
      case Some(answer) =>
        var rest := Drain(stdout[answer.taken..], pending[1..]);
        Parsed(rest.stdout, rest.pending, [answer.response] + rest.answered)
  }

  /** Looks for a whole answer at the front of the buffer. */
  method NextAnswer(stdout: Bytes, request: Request) returns (r: Option<Answer>)
    ensures r == Front(stdout, request)
  {
    hide ParseHeader;
    var newline := IndexOfByte(stdout, NEWLINE);
    if newline.None? { return None; }
    var header := ParseHeader(stdout[..newline.value]);
    if header.Missing? {
      return Some(Answer(Absent(request.expression), newline.value + 1));
    }
    if header.Unexpected? {
      return Some(Answer(Rejected(request.expression), newline.value + 1));
    }
    if request.command == Info {
      return Some(Answer(Described(request.expression, header.oid, header.kind, header.size), newline.value + 1));
    }
    var contentStart := newline.value + 1;
    var contentEnd := contentStart + header.size;
    if |stdout| <= contentEnd { return None; }
    if stdout[contentEnd] != NEWLINE {
      return Some(Answer(Rejected(request.expression), contentEnd));
    }
    return Some(Answer(Found(request.expression, header.oid, header.kind, stdout[contentStart..contentEnd]), contentEnd + 1));
  }

  class SessionWorker {
    var stdout: Bytes
    var pending: seq<Request>
    var answered: seq<Response>

    constructor (requests: seq<Request>)
      ensures stdout == [] && pending == requests && answered == []
    {
      stdout, pending, answered := [], requests, [];
    }

    method ParseResponse()
      modifies this
      ensures var drained := Drain(old(stdout), old(pending));
              stdout == drained.stdout && pending == drained.pending && answered == old(answered) + drained.answered
    {
      hide Front;
      ghost var whole, before := Drain(stdout, pending), answered;
      while pending != []
        invariant whole.stdout == Drain(stdout, pending).stdout && whole.pending == Drain(stdout, pending).pending
        invariant before + whole.answered == answered + Drain(stdout, pending).answered
        decreases |pending|
      {
        var answer := NextAnswer(stdout, pending[0]);
        if answer.None? { return; }
        Answered(answer.value.response, answer.value.taken);
      }
    }

    method Answered(response: Response, taken: nat)
      requires taken <= |stdout| && pending != []
      modifies this
      ensures stdout == old(stdout)[taken..] && pending == old(pending)[1..] && answered == old(answered) + [response]
    {
      stdout := stdout[taken..];
      pending := pending[1..];
      answered := answered + [response];
    }

    method OnData(chunk: Bytes)
      modifies this
      ensures var drained := Drain(old(stdout) + chunk, old(pending));
              stdout == drained.stdout && pending == drained.pending && answered == old(answered) + drained.answered
    {
      stdout := stdout + chunk;
      ParseResponse();
    }
  }

  // However the stream is cut, the answers are the same.

  function Joined(chunks: seq<Bytes>): Bytes {
    if chunks == [] then [] else Joined(chunks[..|chunks| - 1]) + chunks[|chunks| - 1]
  }

  function Fed(requests: seq<Request>, chunks: seq<Bytes>): Parsed {
    if chunks == [] then Parsed([], requests, [])
    else
      var before := Fed(requests, chunks[..|chunks| - 1]);
      var drained := Drain(before.stdout + chunks[|chunks| - 1], before.pending);
      Parsed(drained.stdout, drained.pending, before.answered + drained.answered)
  }

  lemma {:induction false} FirstByteStays(s: Bytes, more: Bytes, b: Byte)
    requires IndexOfByte(s, b).Some?
    ensures IndexOfByte(s + more, b) == IndexOfByte(s, b)
  {
    var i, j := IndexOfByte(s, b).value, IndexOfByte(s + more, b);
    assert (s + more)[i] == b;
    assert forall k :: 0 <= k < i ==> (s + more)[k] == s[k];
  }

  /** An answer that has arrived whole is not changed by what follows it. */
  lemma {:induction false} FrontStays(stdout: Bytes, more: Bytes, request: Request)
    requires Front(stdout, request).Some?
    ensures Front(stdout + more, request) == Front(stdout, request)
  {
    FirstByteStays(stdout, more, NEWLINE);
    var newline := IndexOfByte(stdout, NEWLINE).value;
    assert (stdout + more)[..newline] == stdout[..newline];
    var header := ParseHeader(stdout[..newline]);
    if header.Object? && request.command == Contents {
      var start, end := newline + 1, newline + 1 + header.size;
      assert (stdout + more)[start..end] == stdout[start..end];
    }
  }

  lemma {:induction false} DrainInTwo(stdout: Bytes, more: Bytes, pending: seq<Request>)
    ensures var first := Drain(stdout, pending);
            var second := Drain(first.stdout + more, first.pending);
            Drain(stdout + more, pending) == Parsed(second.stdout, second.pending, first.answered + second.answered)
    decreases |pending|
  {
    hide Front, Joined, Fed;
    if pending != [] && Front(stdout, pending[0]).Some? {
      var answer := Front(stdout, pending[0]).value;
      FrontStays(stdout, more, pending[0]);
      assert (stdout + more)[answer.taken..] == stdout[answer.taken..] + more;
      DrainInTwo(stdout[answer.taken..], more, pending[1..]);
    }
  }

  lemma {:induction false} ChunksDoNotMatter(requests: seq<Request>, chunks: seq<Bytes>)
    ensures Fed(requests, chunks) == Drain(Joined(chunks), requests)
  {
    if chunks == [] {
      assert forall request :: Front([], request).None?;
    } else {
      var rest, last := chunks[..|chunks| - 1], chunks[|chunks| - 1];
      ChunksDoNotMatter(requests, rest);
      DrainInTwo(Joined(rest), last, requests);
    }
  }

  // The one-shot reader.

  /** Reads a whole response at once, or fails on anything malformed. */
  method ReadGitObjects(response: Bytes, expressions: seq<nat>) returns (results: Option<seq<Response>>)
    ensures results == OneShot(response, expressions)
  {
    hide Front;
    var found: seq<Response> := [];
    var offset := 0;
    assert response[0..] == response && expressions[0..] == expressions;
    PrependNone(OneShot(response, expressions));
    for i := 0 to |expressions|
      invariant 0 <= offset <= |response|
      invariant OneShot(response, expressions) == Prepend(found, OneShot(response[offset..], expressions[i..]))
    {
      assert expressions[i..][0] == expressions[i] && expressions[i..][1..] == expressions[i + 1..];
      var answer := ReadOne(response, offset, expressions[i]);
      if answer.None? { return None; }
      assert response[offset..][answer.value.taken..] == response[offset + answer.value.taken..];
      PrependTwice(found, [answer.value.response], OneShot(response[offset + answer.value.taken..], expressions[i + 1..]));
      found := found + [answer.value.response];
      offset := offset + answer.value.taken;
    }
    assert expressions[|expressions|..] == [] && found + [] == found;
    return Some(found);
  }

  method ReadOne(response: Bytes, offset: nat, expression: nat) returns (r: Option<Answer>)
    requires offset <= |response|
    ensures var front := Front(response[offset..], Request(Contents, expression));
            r == if front.Some? && front.value.response.Rejected? then None else front
  {
    hide ParseHeader;
    var rest := response[offset..];
    var newline := IndexOfByte(rest, NEWLINE);
    if newline.None? { return None; }
    var next := offset + newline.value + 1;
    var header := ParseHeader(rest[..newline.value]);
    if header.Missing? { return Some(Answer(Absent(expression), newline.value + 1)); }
    if header.Unexpected? { return None; }
    var end := next + header.size;
    if end >= |response| || response[end] != NEWLINE { return None; }
    assert rest[newline.value + 1 + header.size] == response[end];
    assert response[next..end] == rest[newline.value + 1..newline.value + 1 + header.size];
    return Some(Answer(Found(expression, header.oid, header.kind, response[next..end]), end + 1 - offset));
  }

  lemma {:induction false} PrependNone(rest: Option<seq<Response>>)
    ensures Prepend([], rest) == rest
  {
    if rest.Some? { assert [] + rest.value == rest.value; }
  }

  lemma {:induction false} PrependTwice(a: seq<Response>, b: seq<Response>, rest: Option<seq<Response>>)
    ensures Prepend(a, Prepend(b, rest)) == Prepend(a + b, rest)
  {
    if rest.Some? { assert a + (b + rest.value) == a + b + rest.value; }
  }

  function Prepend(first: seq<Response>, rest: Option<seq<Response>>): Option<seq<Response>> {
    if rest.Some? then Some(first + rest.value) else None
  }

  function OneShot(response: Bytes, expressions: seq<nat>): Option<seq<Response>>
    decreases |expressions|
  {
    if expressions == [] then Some([])
    else
      match Front(response, Request(Contents, expressions[0]))
      case None => None
      case Some(answer) =>
        if answer.response.Rejected? then None
        else Prepend([answer.response], OneShot(response[answer.taken..], expressions[1..]))
  }

  function ContentsOf(expressions: seq<nat>): (r: seq<Request>)
    ensures |r| == |expressions|
  {
    seq(|expressions|, i requires 0 <= i < |expressions| => Request(Contents, expressions[i]))
  }

  predicate NoneRejected(responses: seq<Response>) {
    forall i :: 0 <= i < |responses| ==> !responses[i].Rejected?
  }

  lemma {:induction false} OneShotDrains(response: Bytes, expressions: seq<nat>)
    ensures var drained := Drain(response, ContentsOf(expressions));
            && (OneShot(response, expressions).Some? <==> drained.pending == [] && NoneRejected(drained.answered))
            && (OneShot(response, expressions).Some? ==> OneShot(response, expressions).value == drained.answered)
    decreases |expressions|
  {
    hide Front;
    if expressions != [] {
      var requests := ContentsOf(expressions);
      assert requests[1..] == ContentsOf(expressions[1..]);
      match Front(response, requests[0]) {
        case None =>
        case Some(answer) =>
          OneShotDrains(response[answer.taken..], expressions[1..]);
          var rest := Drain(response[answer.taken..], requests[1..]);
          var all := [answer.response] + rest.answered;
          assert all[0] == answer.response;
          assert forall i :: 0 <= i < |rest.answered| ==> all[i + 1] == rest.answered[i];
      }
    }
  }

  /** However the stream is cut, the worker answers every content request in
      order, and with the same results, exactly when the one-shot reader does. */
  lemma {:induction false} WorkerAgreesWithOneShot(expressions: seq<nat>, chunks: seq<Bytes>)
    ensures var fed := Fed(ContentsOf(expressions), chunks);
            var once := OneShot(Joined(chunks), expressions);
            && (once.Some? <==> fed.pending == [] && NoneRejected(fed.answered))
            && (once.Some? ==> once.value == fed.answered)
  {
    ChunksDoNotMatter(ContentsOf(expressions), chunks);
    OneShotDrains(Joined(chunks), expressions);
  }

  // What Git writes.

  function Digits(n: nat): Bytes {
    (if n < 10 then [] else Digits(n / 10)) + [48 + n % 10]
  }

  lemma {:induction false} DigitsReadBack(n: nat)
    ensures AllBytes(Digits(n), IsDigit) && Decimal(Digits(n)) == n
  {
    if n >= 10 {
      DigitsReadBack(n / 10);
      assert Digits(n)[..|Digits(n)| - 1] == Digits(n / 10);
    }
  }

  datatype Item = MissingItem(name: Bytes) | ObjectItem(oid: Bytes, kind: Bytes, content: Bytes)

  predicate WellFormed(item: Item) {
    match item
    case MissingItem(name) => NEWLINE !in name
    case ObjectItem(oid, kind, _) => AllBytes(oid, IsHex) && AllBytes(kind, NotBlank)
  }

  /** The line before an object's bytes, or in place of them. */
  function HeaderLine(item: Item): Bytes {
    match item
    case MissingItem(name) => name + MISSING
    case ObjectItem(oid, kind, content) => oid + [SPACE] + kind + [SPACE] + Digits(|content|)
  }

  function HeaderOf(item: Item): Header {
    match item
    case MissingItem(_) => Missing
    case ObjectItem(oid, kind, content) => Object(oid, kind, |content|)
  }

  /** A header line is one line. */
  lemma {:induction false} HeaderIsOneLine(item: Item)
    requires WellFormed(item)
    ensures NEWLINE !in HeaderLine(item)
  {
    hide Decimal, Digits;
    match item {
      case MissingItem(name) =>
        assert NEWLINE !in MISSING;
      case ObjectItem(oid, kind, content) =>
        DigitsReadBack(|content|);
        var size := Digits(|content|);
        assert NEWLINE !in oid && NEWLINE !in kind && NEWLINE !in size;
    }
  }

  /** Reading a header line gives what it was written for. */
  lemma {:induction false} HeaderReadsBack(item: Item)
    requires WellFormed(item)
    ensures ParseHeader(HeaderLine(item)) == HeaderOf(item)
  {
    match item {
      case MissingItem(name) => MissingHeader(name);
      case ObjectItem(oid, kind, content) =>
        hide Decimal, Digits, ParseHeader;
        DigitsReadBack(|content|);
        ObjectHeader(oid, kind, Digits(|content|));
    }
  }

  lemma {:induction false} MissingHeader(name: Bytes)
    ensures ParseHeader(name + MISSING) == Missing
  {
    var line := name + MISSING;
    assert line[|line| - |MISSING|..] == MISSING;
  }

  lemma {:induction false} ObjectHeader(oid: Bytes, kind: Bytes, size: Bytes)
    requires AllBytes(oid, IsHex) && AllBytes(kind, NotBlank) && AllBytes(size, IsDigit)
    ensures ParseHeader(oid + [SPACE] + kind + [SPACE] + size) == Object(oid, kind, Decimal(size))
  {
    hide Decimal, IndexOfByte;
    var rest := kind + [SPACE] + size;
    var line := oid + [SPACE] + rest;
    assert line == oid + [SPACE] + kind + [SPACE] + size;
    SpaceAfter(oid, rest);
    SpaceAfter(kind, size);
    NotMissing(line, size);
  }

  /** A line that ends in a digit does not end in " missing". */
  lemma {:induction false} NotMissing(line: Bytes, size: Bytes)
    requires AllBytes(size, IsDigit) && |line| >= |size| && line[|line| - |size|..] == size
    ensures |line| >= |MISSING| ==> line[|line| - |MISSING|..] != MISSING
  {
    assert line[|line| - 1] == size[|size| - 1];
    if |line| >= |MISSING| {
      assert line[|line| - |MISSING|..][|MISSING| - 1] == line[|line| - 1];
    }
  }

  lemma {:induction false} SpaceAfter(word: Bytes, rest: Bytes)
    requires SPACE !in word
    ensures var line := word + [SPACE] + rest;
            IndexOfByte(line, SPACE) == Some(|word|) && line[..|word|] == word && line[|word| + 1..] == rest
  {
    var line := word + [SPACE] + rest;
    assert line[|word|] == SPACE;
    assert forall i :: 0 <= i < |word| ==> line[i] == word[i];
  }

  function Encode(item: Item): Bytes {
    HeaderLine(item) + [NEWLINE] + if item.ObjectItem? then item.content + [NEWLINE] else []
  }

  function EncodeAll(items: seq<Item>): Bytes {
    if items == [] then [] else Encode(items[0]) + EncodeAll(items[1..])
  }

  function ResultOf(item: Item, expression: nat): Response {
    match item
    case MissingItem(_) => Absent(expression)
    case ObjectItem(oid, kind, content) => Found(expression, oid, kind, content)
  }

  lemma {:induction false} FrontOfItem(item: Item, rest: Bytes, expression: nat)
    requires WellFormed(item)
    ensures Front(Encode(item) + rest, Request(Contents, expression)) ==
            Some(Answer(ResultOf(item, expression), |Encode(item)|))
  {
    hide ParseHeader, HeaderLine, WellFormed;
    HeaderIsOneLine(item);
    HeaderReadsBack(item);
    var s := Encode(item) + rest;
    var n := |HeaderLine(item)|;
    FirstLine(HeaderLine(item), s);
    if item.ObjectItem? {
      var end := n + 1 + |item.content|;
      assert s[n + 1..end] == item.content;
      assert s[end] == NEWLINE;
    }
  }

  lemma {:induction false} FirstLine(line: Bytes, s: Bytes)
    requires NEWLINE !in line && line + [NEWLINE] <= s
    ensures IndexOfByte(s, NEWLINE) == Some(|line|) && s[..|line|] == line
  {
    var n := |line|;
    assert s[n] == (line + [NEWLINE])[n];
    assert forall i :: 0 <= i < n ==> s[i] == (line + [NEWLINE])[i] == line[i];
  }

  function ResultsOf(items: seq<Item>, expressions: seq<nat>): seq<Response>
    requires |items| == |expressions|
  {
    seq(|items|, i requires 0 <= i < |items| => ResultOf(items[i], expressions[i]))
  }

  lemma {:induction false} ResultsOfFirst(items: seq<Item>, expressions: seq<nat>)
    requires |items| == |expressions| > 0
    ensures ResultsOf(items, expressions) == [ResultOf(items[0], expressions[0])] + ResultsOf(items[1..], expressions[1..])
  {
    hide ResultOf;
  }

  /** Whatever the objects contain, newlines and header-like lines included, the
      reader gives back exactly the objects that were written. */
  lemma {:induction false} ReadsWhatWasWritten(items: seq<Item>, expressions: seq<nat>)
    requires |items| == |expressions| && forall i :: 0 <= i < |items| ==> WellFormed(items[i])
    ensures OneShot(EncodeAll(items), expressions) == Some(ResultsOf(items, expressions))
    decreases |items|
  {
    if items != [] {
      hide Front, Encode, WellFormed, ResultOf, ResultsOf;
      var rest := EncodeAll(items[1..]);
      FrontOfItem(items[0], rest, expressions[0]);
      assert EncodeAll(items)[|Encode(items[0])|..] == rest;
      forall i | 0 <= i < |items[1..]| ensures WellFormed(items[1..][i]) { assert items[1..][i] == items[i + 1]; }
      ReadsWhatWasWritten(items[1..], expressions[1..]);
      NeverRejected(items[0], expressions[0]);
      ResultsOfFirst(items, expressions);
    } else {
      assert ResultsOf(items, expressions) == [];
    }
  }

  lemma {:induction false} NeverRejected(item: Item, expression: nat)
    ensures !ResultOf(item, expression).Rejected?
  {}

  // The worker, whose requests ask for a description or for the bytes.

  /** What Git writes for a request: the header line, and the bytes when they were
      asked for. */
  function EncodeFor(item: Item, command: Command): Bytes {
    HeaderLine(item) + [NEWLINE] + if item.ObjectItem? && command == Contents then item.content + [NEWLINE] else []
  }

  function EncodeAllFor(items: seq<Item>, requests: seq<Request>): Bytes
    requires |items| == |requests|
  {
    if items == [] then [] else EncodeFor(items[0], requests[0].command) + EncodeAllFor(items[1..], requests[1..])
  }

  /** The answer a request is owed. */
  function Owed(item: Item, request: Request): Response {
    match item
    case MissingItem(_) => Absent(request.expression)
    case ObjectItem(oid, kind, content) =>
      if request.command == Info then Described(request.expression, oid, kind, |content|)
      else Found(request.expression, oid, kind, content)
  }

  lemma {:induction false} FrontIsOwed(item: Item, rest: Bytes, request: Request)
    requires WellFormed(item)
    ensures Front(EncodeFor(item, request.command) + rest, request) ==
            Some(Answer(Owed(item, request), |EncodeFor(item, request.command)|))
  {
    hide ParseHeader, HeaderLine, WellFormed;
    HeaderIsOneLine(item);
    HeaderReadsBack(item);
    var s := EncodeFor(item, request.command) + rest;
    var n := |HeaderLine(item)|;
    FirstLine(HeaderLine(item), s);
    if item.ObjectItem? && request.command == Contents {
      var end := n + 1 + |item.content|;
      assert s[n + 1..end] == item.content;
      assert s[end] == NEWLINE;
    }
  }

  /** Whatever is asked of whatever objects: every request gets what it is owed, in
      order, and nothing is left in the buffer. */
  lemma {:induction false} WorkerReadsWhatWasWritten(items: seq<Item>, requests: seq<Request>)
    requires |items| == |requests| && forall i :: 0 <= i < |items| ==> WellFormed(items[i])
    ensures var r := Drain(EncodeAllFor(items, requests), requests);
            && r.stdout == [] && r.pending == [] && |r.answered| == |items|
            && forall i :: 0 <= i < |items| ==> r.answered[i] == Owed(items[i], requests[i])
    decreases |items|
  {
    if items != [] {
      hide Front, EncodeFor, WellFormed, Owed;
      var s, rest := EncodeAllFor(items, requests), EncodeAllFor(items[1..], requests[1..]);
      FrontIsOwed(items[0], rest, requests[0]);
      assert s[|EncodeFor(items[0], requests[0].command)|..] == rest;
      forall i | 0 <= i < |items[1..]| ensures WellFormed(items[1..][i]) { assert items[1..][i] == items[i + 1]; }
      WorkerReadsWhatWasWritten(items[1..], requests[1..]);
      var after := Drain(rest, requests[1..]);
      forall i | 0 <= i < |items| ensures ([Owed(items[0], requests[0])] + after.answered)[i] == Owed(items[i], requests[i]) {
        if i > 0 { assert items[1..][i - 1] == items[i] && requests[1..][i - 1] == requests[i]; }
      }
    }
  }

  /** A line says an object is missing exactly when it ends so; it describes one
      exactly when it is a hex id, a type without a blank and a size in digits. */
  lemma {:induction false} HeaderIs(line: Bytes)
    ensures ParseHeader(line).Missing? <==> |line| >= 8 && line[|line| - 8..] == [32, 109, 105, 115, 115, 105, 110, 103]
    ensures ParseHeader(line).Object? ==>
              exists size :: AllBytes(size, IsDigit) && ParseHeader(line).size == Decimal(size) &&
                AllBytes(ParseHeader(line).oid, IsHex) && AllBytes(ParseHeader(line).kind, NotBlank) &&
                line == ParseHeader(line).oid + [32] + ParseHeader(line).kind + [32] + size
  {
    hide Decimal, IsHex, NotBlank;
    if ParseHeader(line).Object? {
      var first := IndexOfByte(line, SPACE).value;
      var rest := line[first + 1..];
      var second := IndexOfByte(rest, SPACE).value;
      var size := rest[second + 1..];
      assert rest == rest[..second] + [32] + size;
      assert line == line[..first] + [32] + rest;
      assert AllBytes(size, IsDigit);
    }
  }

  /** A line that is neither is rejected, and the next answer is read after it; so
      are bytes that do not end where the header says, from where they should. */
  lemma {:induction false} MalformedIsRejected(line: Bytes, rest: Bytes, request: Request)
    requires NEWLINE !in line
    ensures ParseHeader(line).Unexpected? ==>
              Front(line + [NEWLINE] + rest, request) == Some(Answer(Rejected(request.expression), |line| + 1))
    ensures ParseHeader(line).Object? && request.command == Contents ==>
              var size := ParseHeader(line).size;
              && (|rest| <= size ==> Front(line + [NEWLINE] + rest, request).None?)
              && (|rest| > size && rest[size] != NEWLINE ==>
                    Front(line + [NEWLINE] + rest, request) == Some(Answer(Rejected(request.expression), |line| + 1 + size)))
  {
    hide ParseHeader;
    FirstLine(line, line + [NEWLINE] + rest);
  }
}
