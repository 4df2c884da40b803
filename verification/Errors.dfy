/**
 Errors and their classification.

 A Go error is a tree: an *HTTPError may have a cause, fmt.Errorf with %w wraps one
 error and errors.Join several. errors.As walks it depth first, each error before the
 ones it wraps. A nil error is `None`.
 */
module Errors {
  import opened Wrappers

  datatype Error =
    | Http(status: int, code: string, message: string, cause: Option<Error>)
    | Pg(sqlState: string, constraint: string, text: string)
    | Plain(text: string)
    | Wrapped(prefix: string, inner: Error)
    | Joined(parts: seq<Error>)

  datatype Result<+T> = Ok(value: T) | Err(error: Error)

  function NewError(status: int, code: string, message: string): Error {
    Http(status, code, message, None)
  }

  function WrapError(e: Error, cause: Error): Error
    requires e.Http?
  {
    e.(cause := Some(cause))
  }

  function ValidationError(field: string, reason: string): Error {
    NewError(400, "VALIDATION_ERROR", "field \"" + field + "\" " + reason)
  }

  function InternalError(): Error {
    NewError(500, "INTERNAL_ERROR", "internal server error")
  }

  // err.Error()
  function Text(e: Error): string {
    match e
    case Http(_, code, message, _) => code + ": " + message
    case Pg(_, _, text) => text
    case Plain(text) => text
    case Wrapped(prefix, inner) => prefix + Text(inner)
    case Joined(parts) => JoinedText(parts)
  }

  function JoinedText(parts: seq<Error>): string {
    if parts == [] then ""
    else if |parts| == 1 then Text(parts[0])
    else Text(parts[0]) + "\n" + JoinedText(parts[1..])
  }

  // ----- errors.As ---------------------------------------------------------------

  function AsHttp(e: Error): (found: Option<Error>)
    ensures found.Some? ==> found.value.Http?
  {
    match e
    case Http(_, _, _, _) => Some(e)
    case Pg(_, _, _) => None
    case Plain(_) => None
    case Wrapped(_, inner) => AsHttp(inner)
    case Joined(parts) => AsHttpAmong(parts)
  }

  function AsHttpAmong(parts: seq<Error>): (found: Option<Error>)
    ensures found.Some? ==> found.value.Http?
  {
    if parts == [] then None
    else
      var first := AsHttp(parts[0]);
      if first.Some? then first else AsHttpAmong(parts[1..])
  }

  function AsPg(e: Error): (found: Option<Error>)
    ensures found.Some? ==> found.value.Pg?
  {
    match e
    case Http(_, _, _, cause) => if cause.None? then None else AsPg(cause.value)
    case Pg(_, _, _) => Some(e)
    case Plain(_) => None
    case Wrapped(_, inner) => AsPg(inner)
    case Joined(parts) => AsPgAmong(parts)
  }

  function AsPgAmong(parts: seq<Error>): (found: Option<Error>)
    ensures found.Some? ==> found.value.Pg?
  {
    if parts == [] then None
    else
      var first := AsPg(parts[0]);
      if first.Some? then first else AsPgAmong(parts[1..])
  }

  // ----- Classification ----------------------------------------------------------

  predicate Is4xx(status: int) {
    400 <= status < 500
  }

  predicate IsClientError(err: Option<Error>) {
    err.Some? && AsHttp(err.value).Some? && Is4xx(AsHttp(err.value).value.status)
  }

  predicate HasCode(err: Option<Error>, code: string) {
    if err.None? then false
    else
      var http := AsHttp(err.value);
      if http.Some? then http.value.code == code else code + ":" <= Text(err.value)
  }

  function MapError(err: Option<Error>): (mapped: Option<Error>)
    ensures mapped.Some? <==> err.Some?
    ensures mapped.Some? ==> mapped.value.Http?
  {
    if err.None? then None
    else
      var http := AsHttp(err.value);
      if http.Some? then http else Some(WrapError(InternalError(), err.value))
  }

  // The status AbortError answers with.
  function AbortStatus(err: Option<Error>): int {
    var mapped := MapError(err);
    if mapped.None? then InternalError().status else mapped.value.status
  }

  // ----- The order in which a tree is searched -----------------------------------

  /** Every error of the tree in the order errors.As visits them. */
  function Visited(e: Error): seq<Error> {
    [e] +
    match e
    case Http(_, _, _, cause) => if cause.None? then [] else Visited(cause.value)
    case Pg(_, _, _) => []
    case Plain(_) => []
    case Wrapped(_, inner) => Visited(inner)
    case Joined(parts) => VisitedAmong(parts)
  }

  function VisitedAmong(parts: seq<Error>): seq<Error> {
    if parts == [] then [] else Visited(parts[0]) + VisitedAmong(parts[1..])
  }

  // What errors.As may be asked for.
  datatype Target = HttpTarget | PgTarget {
    predicate Is(e: Error) {
      match this
      case HttpTarget => e.Http?
      case PgTarget => e.Pg?
    }
  }

  // `found` is the first error of the list that is such a target, if there is one.
  ghost predicate First(list: seq<Error>, target: Target, found: Option<Error>) {
    if found.None? then forall i :: 0 <= i < |list| ==> !target.Is(list[i])
    else exists i :: 0 <= i < |list| && FirstAt(list, target, i) && list[i] == found.value
  }

  ghost predicate FirstAt(list: seq<Error>, target: Target, i: nat)
    requires i < |list|
  {
    target.Is(list[i]) && forall j :: 0 <= j < i ==> !target.Is(list[j])
  }

  // The first *HTTPError, or the first *PgError, of an error tree.
  ghost predicate FirstHttp(e: Error, found: Option<Error>) {
    First(Visited(e), HttpTarget, found)
  }

  ghost predicate FirstPg(e: Error, found: Option<Error>) {
    First(Visited(e), PgTarget, found)
  }

  lemma FirstOfConcat(a: seq<Error>, b: seq<Error>, target: Target, inA: Option<Error>, inB: Option<Error>)
    requires First(a, target, inA) && First(b, target, inB)
    ensures First(a + b, target, if inA.Some? then inA else inB)
  {
    if inA.Some? {
      var i :| 0 <= i < |a| && FirstAt(a, target, i) && a[i] == inA.value;
      assert FirstAt(a + b, target, i) && (a + b)[i] == inA.value;
    } else if inB.Some? {
      var i :| 0 <= i < |b| && FirstAt(b, target, i) && b[i] == inB.value;
      assert FirstAt(a + b, target, |a| + i) && (a + b)[|a| + i] == inB.value;
    }
  }

  lemma FirstOfPush(e: Error, rest: seq<Error>, target: Target, inRest: Option<Error>)
    requires First(rest, target, inRest)
    ensures First([e] + rest, target, if target.Is(e) then Some(e) else inRest)
  {
    var head := if target.Is(e) then Some(e) else None;
    assert First([e], target, head) by {
      assert [e][0] == e;
      assert target.Is(e) ==> FirstAt([e], target, 0);
    }
    FirstOfConcat([e], rest, target, head, inRest);
  }

  lemma FirstIsUnique(list: seq<Error>, target: Target, a: Option<Error>, b: Option<Error>)
    requires First(list, target, a) && First(list, target, b)
    ensures a == b
  {
    if a.Some? && b.Some? {
      var i :| 0 <= i < |list| && FirstAt(list, target, i) && list[i] == a.value;
      var k :| 0 <= k < |list| && FirstAt(list, target, k) && list[k] == b.value;
      assert i == k;
    }
  }

  lemma {:induction false} AsHttpFindsFirst(e: Error)
    ensures FirstHttp(e, AsHttp(e))
  {
    match e
    case Http(_, _, _, cause) =>
      var rest := if cause.None? then [] else Visited(cause.value);
      assert Visited(e) == [e] + rest;
      assert FirstAt(Visited(e), HttpTarget, 0) && Visited(e)[0] == e;
    case Pg(_, _, _) =>
      assert Visited(e) == [e];
    case Plain(_) =>
      assert Visited(e) == [e];
    case Wrapped(_, inner) =>
      AsHttpFindsFirst(inner);
      FirstOfPush(e, Visited(inner), HttpTarget, AsHttp(inner));
    case Joined(parts) =>
      AsHttpAmongFindsFirst(parts);
      FirstOfPush(e, VisitedAmong(parts), HttpTarget, AsHttpAmong(parts));
  }

  lemma {:induction false} AsHttpAmongFindsFirst(parts: seq<Error>)
    ensures First(VisitedAmong(parts), HttpTarget, AsHttpAmong(parts))
  {
    if parts == [] {
    } else {
      AsHttpFindsFirst(parts[0]);
      AsHttpAmongFindsFirst(parts[1..]);
      FirstOfConcat(Visited(parts[0]), VisitedAmong(parts[1..]), HttpTarget, AsHttp(parts[0]), AsHttpAmong(parts[1..]));
    }
  }

  lemma {:induction false} AsPgFindsFirst(e: Error)
    ensures FirstPg(e, AsPg(e))
  {
    match e
    case Http(_, _, _, cause) =>
      if cause.None? {
        assert Visited(e) == [e];
      } else {
        AsPgFindsFirst(cause.value);
        FirstOfPush(e, Visited(cause.value), PgTarget, AsPg(cause.value));
      }
    case Pg(_, _, _) =>
      assert Visited(e)[0] == e && FirstAt(Visited(e), PgTarget, 0);
    case Plain(_) =>
      assert Visited(e) == [e];
    case Wrapped(_, inner) =>
      AsPgFindsFirst(inner);
      FirstOfPush(e, Visited(inner), PgTarget, AsPg(inner));
    case Joined(parts) =>
      AsPgAmongFindsFirst(parts);
      FirstOfPush(e, VisitedAmong(parts), PgTarget, AsPgAmong(parts));
  }

  lemma {:induction false} AsPgAmongFindsFirst(parts: seq<Error>)
    ensures First(VisitedAmong(parts), PgTarget, AsPgAmong(parts))
  {
    if parts == [] {
    } else {
      AsPgFindsFirst(parts[0]);
      AsPgAmongFindsFirst(parts[1..]);
      FirstOfConcat(Visited(parts[0]), VisitedAmong(parts[1..]), PgTarget, AsPg(parts[0]), AsPgAmong(parts[1..]));
    }
  }

  /** errors.As answers with an error exactly when it is the first of its kind in the tree. */
  lemma SearchesAreExact(e: Error, found: Option<Error>)
    ensures FirstHttp(e, found) <==> AsHttp(e) == found
    ensures FirstPg(e, found) <==> AsPg(e) == found
  {
    AsHttpFindsFirst(e);
    AsPgFindsFirst(e);
    if FirstHttp(e, found) {
      FirstIsUnique(Visited(e), HttpTarget, found, AsHttp(e));
    }
    if FirstPg(e, found) {
      FirstIsUnique(Visited(e), PgTarget, found, AsPg(e));
    }
  }

  /** The answer every error is mapped to: its first *HTTPError, or a 500 that wraps it. */
  lemma MapErrorAnswers(e: Error)
    ensures forall h :: FirstHttp(e, Some(h)) ==> MapError(Some(e)) == Some(h) && AbortStatus(Some(e)) == h.status
    ensures FirstHttp(e, None) ==>
            && MapError(Some(e)) == Some(Http(500, "INTERNAL_ERROR", "internal server error", Some(e)))
            && AbortStatus(Some(e)) == 500
    ensures MapError(None) == None && AbortStatus(None) == 500
  {
    forall h | FirstHttp(e, Some(h))
      ensures AsHttp(e) == Some(h)
    {
      SearchesAreExact(e, Some(h));
    }
    SearchesAreExact(e, None);
  }

  /**
   Over trees of any shape: an error is the caller's fault exactly when the first
   *HTTPError visited has a 4xx status, and exactly when the answer it maps to does.
   */
  lemma ClientErrorsAreThe4xxAnswers(err: Option<Error>)
    ensures IsClientError(err) <==> err.Some? && 400 <= AbortStatus(err) < 500
    ensures IsClientError(err) <==>
            err.Some? && exists first :: FirstHttp(err.value, Some(first)) && 400 <= first.status < 500
  {
    if err.Some? {
      AsHttpFindsFirst(err.value);
      forall first | FirstHttp(err.value, Some(first))
        ensures AsHttp(err.value) == Some(first)
      {
        SearchesAreExact(err.value, Some(first));
      }
    }
  }

  // ----- Answers, by status and code -----------------------------------------------

  // An *HTTPError with this status and code.
  predicate Says(e: Error, status: int, code: string) {
    e.Http? && e.status == status && e.code == code
  }

  // ----- Flattening to a string ----------------------------------------------------

  lemma PrefixToColon(code: string, rest: string, asked: string)
    requires ':' !in asked
    ensures asked + ":" <= code + ":" + rest <==>
            asked <= code && (|asked| == |code| || code[|asked|] == ':')
  {
    var whole, want := code + ":" + rest, asked + ":";
    assert whole[|code|] == ':';
    if want <= whole {
      assert whole[|asked|] == want[|asked|] == ':';
      assert asked == whole[..|asked|];
      assert |asked| <= |code|;
      assert whole[..|asked|] == code[..|asked|];
    }
  }

  /** The same code question, to an *HTTPError and to the string it was flattened to. */
  predicate SameAnswer(e: Error, asked: string) {
    HasCode(Some(Plain(Text(e))), asked) == HasCode(Some(e), asked)
  }

  lemma FlattenedCode(e: Error, asked: string)
    requires e.Http? && ':' !in asked
    ensures HasCode(Some(Plain(Text(e))), asked) <==>
            asked <= e.code && (|asked| == |e.code| || e.code[|asked|] == ':')
  {
    assert Text(e) == e.code + ":" + (" " + e.message);
    PrefixToColon(e.code, " " + e.message, asked);
  }

  /** Flattening loses no answer exactly when the error's own code has no colon. */
  lemma FlatteningKeepsCodes(e: Error)
    requires e.Http?
    ensures ':' !in e.code <==> forall asked :: ':' !in asked ==> SameAnswer(e, asked)
  {
    forall asked | ':' !in asked && ':' !in e.code
      ensures SameAnswer(e, asked)
    {
      FlattenedCode(e, asked);
      if asked <= e.code && |asked| < |e.code| {
        assert e.code[|asked|] in e.code;
      }
    }
    if ':' in e.code {
      var i := FirstColon(e.code);
      FlattenedCode(e, e.code[..i]);
      assert !SameAnswer(e, e.code[..i]);
    }
  }

  function FirstColon(s: string): (i: nat)
    requires ':' in s
    ensures i < |s| && s[i] == ':' && ':' !in s[..i]
  {
    if s[0] == ':' then 0
    else
      var i := FirstColon(s[1..]);
      assert s[..i + 1] == [s[0]] + s[1..][..i];
      i + 1
  }

  lemma ColonIsUnique(s: string, i: nat)
    requires i < |s| && s[i] == ':' && ':' !in s[..i]
    ensures ':' in s && FirstColon(s) == i
  {
    var k := FirstColon(s);
    assert forall j :: 0 <= j < i ==> s[..i][j] in s[..i] && s[..i][j] == s[j];
    assert forall j :: 0 <= j < k ==> s[..k][j] in s[..k] && s[..k][j] == s[j];
  }

  // A colon-free code begins a text exactly when it is what stands before the first colon.
  lemma CodeIsUpToColon(text: string, asked: string)
    requires ':' !in asked
    ensures asked + ":" <= text <==> ':' in text && asked == text[..FirstColon(text)]
  {
    var want := asked + ":";
    if want <= text {
      assert text[|asked|] == want[|asked|] == ':';
      assert asked == text[..|asked|];
      ColonIsUnique(text, |asked|);
    } else if ':' in text {
      var i := FirstColon(text);
      assert text[..i + 1] == text[..i] + ":";
    }
  }

  /**
   An error that was wrapped before it was flattened answers to what stands before the first
   colon of the whole text: to a piece of the prefix if the prefix has a colon, else to the
   prefix and the code together. Its own code is lost unless that is what stands there.
   */
  lemma PrefixHidesTheCode(prefix: string, e: Error, asked: string)
    requires e.Http? && ':' !in e.code && ':' !in asked
    ensures var flat := Plain(Text(Wrapped(prefix, e)));
            HasCode(Some(flat), asked) <==>
            asked == if ':' in prefix then prefix[..FirstColon(prefix)] else prefix + e.code
  {
    var rest := e.code + ": " + e.message;
    var whole := prefix + rest;
    assert Text(Wrapped(prefix, e)) == whole;
    CodeIsUpToColon(whole, asked);
    if ':' in prefix {
      var i := FirstColon(prefix);
      assert whole[i] == prefix[i] && whole[..i] == prefix[..i];
      ColonIsUnique(whole, i);
    } else {
      var i := |prefix| + |e.code|;
      assert rest[|e.code|] == ':' && whole[i] == rest[|e.code|];
      assert rest[..|e.code|] == e.code && whole[..i] == prefix + e.code;
      ColonIsUnique(whole, i);
    }
  }
}
