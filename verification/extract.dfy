/** `extractJSON` (client/src/lib/engine.ts): recovers a JSON value from a
    small model's reply by trying three candidate substrings in a fixed order.
    `JSON.parse` itself is not modelled: it is the parameter `parse`, which
    returns None where `JSON.parse` throws. */
module Extract {
  import opened Wrappers
  import opened Text

  /** What a successful `JSON.parse` yields, as seen by a caller that tests
      it for truthiness: `null`, `false`, `0` and `""` are Falsy; anything
      else is Truthy and carries its typed view. */
  datatype Parsed<+T> = Falsy | Truthy(value: T)

  /** The text between the opening fence (after an optional `json` tag and
      white space) and the next fence: the capture group of the regular
      expression /```(?:json)?\s*([\s\S]*?)```/, or None when it does not
      match. The match always starts at the first fence: nothing inside an
      optional `json` tag or white space can begin a fence, so no alternative
      reached by backtracking matches where this one fails. */
  function FenceInterior(raw: string): Option<string> {
    var opening := FindFence(raw, 0);
    if opening.None? then None
    else
      var p := CaptureStart(raw, opening.value);
      var closing := FindFence(raw, p);
      if closing.None? then None else Some(raw[p..closing.value])
  }

  /** Where the capture group begins for a fence at `i`: after the optional
      `json` tag and the white space that follows. */
  function CaptureStart(raw: string, i: nat): (p: nat)
    requires i + 3 <= |raw|
    ensures i + 3 <= p <= |raw|
  {
    SkipSpaces(raw, if JsonTagAt(raw, i + 3) then i + 7 else i + 3)
  }

  /** The regular-expression reading of `FenceInterior`: a match opens at the
      first fence; the capture starts where the white space after the optional
      `json` tag ends and runs up to the next fence; and there is a match
      exactly when two non-overlapping fences exist. */
  lemma FenceInteriorMatches(raw: string)
    ensures FenceInterior(raw).Some? ==>
      exists o, p, c :: 0 <= o && o + 3 <= p && p <= c && FenceAt(raw, o) && FenceAt(raw, c)
        && (forall k :: 0 <= k < o ==> !FenceAt(raw, k))
        && p == SkipSpaces(raw, if JsonTagAt(raw, o + 3) then o + 7 else o + 3)
        && (forall k :: p <= k < c ==> !FenceAt(raw, k))
        && FenceInterior(raw).value == raw[p..c]
    ensures FenceInterior(raw).Some? <==> exists x, y :: FenceAt(raw, x) && FenceAt(raw, y) && x + 3 <= y
  {
    var opening := FindFence(raw, 0);
    if opening.Some? {
      var i := opening.value;
      var tagEnd := if JsonTagAt(raw, i + 3) then i + 7 else i + 3;
      var p := CaptureStart(raw, i);
      NoFenceInTail(raw, i + 3, tagEnd, p);
      var closing := FindFence(raw, p);
      if closing.None? {
        assert forall k :: i + 3 <= k ==> !FenceAt(raw, k);
      }
    }
  }

  /** No fence starts inside the optional tag and the white space after it. */
  lemma NoFenceInTail(raw: string, start: nat, tagEnd: nat, p: nat)
    requires start <= tagEnd && tagEnd <= p && p <= |raw|
    requires tagEnd == start || (tagEnd == start + 4 && JsonTagAt(raw, start))
    requires AllSpace(raw[tagEnd..p])
    ensures forall k :: start <= k < p ==> !FenceAt(raw, k)
  {
    forall k | start <= k < p
      ensures !FenceAt(raw, k)
    {
      if k >= tagEnd {
        assert raw[k] == raw[tagEnd..p][k - tagEnd];
      }
    }
  }

  /** Second strategy: the trimmed capture of /```(?:json)?\s*([\s\S]*?)```/.
      It is there exactly when two non-overlapping fences exist; the capture
      starts after the first fence, the `json` tag when present, and the
      white space that follows, and it ends at the next fence. */
  function FenceCandidate(raw: string): (r: Option<string>)
    ensures r.Some? <==> exists x, y :: FenceAt(raw, x) && FenceAt(raw, y) && x + 3 <= y
    ensures r.Some? ==>
      exists o, p, c :: 0 <= o && o + 3 <= p && p <= c && FenceAt(raw, o) && FenceAt(raw, c)
        && (forall k :: 0 <= k < o ==> !FenceAt(raw, k))
        && p == SkipSpaces(raw, if JsonTagAt(raw, o + 3) then o + 7 else o + 3)
        && (forall k :: p <= k < c ==> !FenceAt(raw, k))
        && r.value == Trim(raw[p..c])
  {
    FenceInteriorMatches(raw);
    match FenceInterior(raw)
    case None => None
    case Some(inner) => Some(Trim(inner))
  }

  /** Third strategy: the substring from the first `{` through the last `}`,
      tried only when that `}` comes after that `{`. */
  function BraceCandidate(raw: string): (r: Option<string>)
    ensures r.Some? <==> exists i, j :: 0 <= i < j < |raw| && raw[i] == '{' && raw[j] == '}'
    ensures r.Some? ==>
      exists a, b :: 0 <= a < b <= |raw| && r.value == raw[a..b]
        && (forall k :: 0 <= k < a ==> raw[k] != '{')
        && (forall k :: b <= k < |raw| ==> raw[k] != '}')
    ensures r.Some? ==> |r.value| >= 2 && r.value[0] == '{' && r.value[|r.value| - 1] == '}'
  {
    var first := IndexOf(raw, '{');
    var last := LastIndexOf(raw, '}');
    if first != -1 && last > first then Some(raw[first..last + 1]) else None
  }

  /** The candidate substrings, in the order they are tried. */
  function Candidates(raw: string): seq<Option<string>> {
    [Some(raw), FenceCandidate(raw), BraceCandidate(raw)]
  }

  /** The first candidate, in order, that is present and parses; None when
      none does. */
  function FirstSuccess<T>(parse: string -> Option<T>, candidates: seq<Option<string>>): Option<T> {
    if |candidates| == 0 then None
    else if !Fails(parse, candidates[0]) then parse(candidates[0].value)
    else FirstSuccess(parse, candidates[1..])
  }

  /** The ordered search yields the parse of the earliest candidate that
      parses, after only failures, and nothing exactly when every candidate
      fails. */
  lemma {:induction false} FirstSuccessSpec<T>(parse: string -> Option<T>, candidates: seq<Option<string>>)
    ensures FirstSuccess(parse, candidates).Some? ==>
      exists k :: 0 <= k < |candidates| && candidates[k].Some?
        && FirstSuccess(parse, candidates) == parse(candidates[k].value)
        && forall m :: 0 <= m < k ==> Fails(parse, candidates[m])
    ensures FirstSuccess(parse, candidates).None? <==>
      forall k :: 0 <= k < |candidates| ==> Fails(parse, candidates[k])
  {
    if |candidates| > 0 && Fails(parse, candidates[0]) {
      var rest := candidates[1..];
      FirstSuccessSpec(parse, rest);
      assert forall k :: 1 <= k < |candidates| ==> candidates[k] == rest[k - 1];
      if FirstSuccess(parse, rest).Some? {
        var k :| 0 <= k < |rest| && rest[k].Some? && FirstSuccess(parse, rest) == parse(rest[k].value)
          && forall m :: 0 <= m < k ==> Fails(parse, rest[m]);
        assert candidates[k + 1] == rest[k];
      }
    }
  }

  /** A candidate that is absent or does not parse. */
  predicate Fails<T>(parse: string -> Option<T>, c: Option<string>) {
    c.None? || parse(c.value).None?
  }

  /** `extractJSON(raw)`: the whole reply, then the fenced block, then the
      brace-bounded substring; the first that parses wins, and it never fails
      by throwing: every outcome is a value. */
  function ExtractJson<T>(parse: string -> Option<T>, raw: string): (r: Option<T>)
    ensures parse(raw).Some? ==> r == parse(raw)
    ensures parse(raw).None? && !Fails(parse, FenceCandidate(raw)) ==>
      r == parse(FenceCandidate(raw).value)
    ensures parse(raw).None? && Fails(parse, FenceCandidate(raw)) ==>
      r == (if BraceCandidate(raw).Some? then parse(BraceCandidate(raw).value) else None)
  {
    var fenced := FenceCandidate(raw);
    var braced := BraceCandidate(raw);
    if parse(raw).Some? then parse(raw)
    else if !Fails(parse, fenced) then parse(fenced.value)
    else if braced.Some? then parse(braced.value)
    else None
  }
  /** `extractJSON` is the ordered-strategy search: its result is that of the
      first candidate, of the whole reply, the fenced block and the braced
      substring, that parses, and it is None exactly when none does. */
  lemma {:induction false} ExtractJsonIsFirstSuccess<T>(parse: string -> Option<T>, raw: string)
    ensures ExtractJson(parse, raw) == FirstSuccess(parse, Candidates(raw))
  {
    var c := Candidates(raw);
    assert c[1..] == [c[1], c[2]];
    assert [c[1], c[2]][1..] == [c[2]];
    assert [c[2]][1..] == [];
    assert FirstSuccess(parse, [c[2]]) == (if !Fails(parse, c[2]) then parse(c[2].value) else None);
  }

  /** A reply made of prose, an opening fence with an optional tag, white
      space, a body, a closing fence, and more text. */
  function FencedReply(pre: string, tag: string, ws: string, body: string, post: string): string {
    pre + "```" + tag + ws + body + "```" + post
  }

  /** The pieces of a fenced reply from which the body is recovered: no
      backtick before the fence, an optional `json` tag, white space, and a
      JSON text (non-empty, no backticks, not bounded by white space, and not
      starting with `j`, which an untagged fence would read as a tag). */
  predicate WellFenced(pre: string, tag: string, ws: string, body: string) {
    && '`' !in pre
    && (tag == "" || tag == "json")
    && AllSpace(ws)
    && body != [] && '`' !in body && IsTrimmed(body) && body[0] != 'j'
  }

  /** A reply that is a JSON body inside a fenced block, with prose before
      and any text after, yields that body when the whole reply is not JSON
      itself. */
  lemma {:induction false} FencedBodyRecovered<T>(parse: string -> Option<T>, pre: string, tag: string,
                                                ws: string, body: string, post: string)
    requires WellFenced(pre, tag, ws, body)
    requires parse(FencedReply(pre, tag, ws, body, post)).None?
    requires parse(body).Some?
    ensures ExtractJson(parse, FencedReply(pre, tag, ws, body, post)) == parse(body)
  {
    FenceInteriorOf(pre, tag, ws, body, post);
    TrimOfTrimmed(body);
  }

  /** The interior of the first fenced block of such a reply is the body. */
  lemma FenceInteriorOf(pre: string, tag: string, ws: string, body: string, post: string)
    requires WellFenced(pre, tag, ws, body)
    ensures FenceInterior(FencedReply(pre, tag, ws, body, post)) == Some(body)
  {
    var b := |pre| + 3 + |tag| + |ws|;
    FencePositionsOf(pre, tag, ws, body, post);
    FenceInteriorFrom(FencedReply(pre, tag, ws, body, post), |pre|, b, b + |body|);
  }

  /** The search finds the opening fence at `i`, the capture starting at `b`
      and the closing fence at `j`. */
  predicate FenceLayout(raw: string, i: nat, b: nat, j: nat) {
    && FindFence(raw, 0) == Some(i)
    && i + 3 <= |raw|
    && CaptureStart(raw, i) == b
    && FindFence(raw, b) == Some(j)
  }

  /** Where the search finds the two fences and the start of the capture. */
  lemma FencePositionsOf(pre: string, tag: string, ws: string, body: string, post: string)
    requires WellFenced(pre, tag, ws, body)
    ensures FenceLayout(FencedReply(pre, tag, ws, body, post), |pre|, |pre| + 3 + |tag| + |ws|,
                        |pre| + 3 + |tag| + |ws| + |body|)
    ensures FencedReply(pre, tag, ws, body, post)[|pre| + 3 + |tag| + |ws|..|pre| + 3 + |tag| + |ws| + |body|] == body
  {
    OpeningFenceOf(pre, tag, ws, body, post);
    SkipOf(pre, tag, ws, body, post);
    ClosingFenceOf(pre, tag, ws, body, post);
  }

  lemma OpeningFenceOf(pre: string, tag: string, ws: string, body: string, post: string)
    requires WellFenced(pre, tag, ws, body)
    ensures FindFence(FencedReply(pre, tag, ws, body, post), 0) == Some(|pre|)
  {
    var raw := FencedReply(pre, tag, ws, body, post);
    var i := |pre|;
    assert raw[i] == '`' && raw[i + 1] == '`' && raw[i + 2] == '`';
    assert forall k :: 0 <= k < i ==> raw[k] == pre[k];
    FindFenceSkips(raw, 0, i);
  }

  /** The optional `json` tag is taken exactly when it is there. */
  lemma TagOf(pre: string, tag: string, ws: string, body: string, post: string)
    requires WellFenced(pre, tag, ws, body)
    ensures JsonTagAt(FencedReply(pre, tag, ws, body, post), |pre| + 3) <==> tag == "json"
  {
    var raw := FencedReply(pre, tag, ws, body, post);
    var start := |pre| + 3;
    if tag == "" {
      assert raw[start] == if |ws| > 0 then ws[0] else body[0];
    } else {
      assert forall k :: 0 <= k < 4 ==> raw[start + k] == tag[k];
    }
  }

  /** The capture starts right after the tag and the white space. */
  lemma SkipOf(pre: string, tag: string, ws: string, body: string, post: string)
    requires WellFenced(pre, tag, ws, body)
    ensures |pre| + 3 <= |FencedReply(pre, tag, ws, body, post)|
    ensures CaptureStart(FencedReply(pre, tag, ws, body, post), |pre|) == |pre| + 3 + |tag| + |ws|
  {
    var raw := FencedReply(pre, tag, ws, body, post);
    TagOf(pre, tag, ws, body, post);
    var tagEnd := |pre| + 3 + |tag|;
    var b := tagEnd + |ws|;
    assert raw[tagEnd..b] == ws;
    assert raw[b] == body[0];
    SkipSpacesOver(raw, tagEnd, b);
  }

  lemma ClosingFenceOf(pre: string, tag: string, ws: string, body: string, post: string)
    requires WellFenced(pre, tag, ws, body)
    ensures |pre| + 3 + |tag| + |ws| + |body| <= |FencedReply(pre, tag, ws, body, post)|
    ensures FindFence(FencedReply(pre, tag, ws, body, post), |pre| + 3 + |tag| + |ws|)
      == Some(|pre| + 3 + |tag| + |ws| + |body|)
    ensures FencedReply(pre, tag, ws, body, post)[|pre| + 3 + |tag| + |ws|..|pre| + 3 + |tag| + |ws| + |body|] == body
  {
    var raw := FencedReply(pre, tag, ws, body, post);
    var b := |pre| + 3 + |tag| + |ws|;
    var j := b + |body|;
    assert raw[j] == '`' && raw[j + 1] == '`' && raw[j + 2] == '`';
    assert forall k :: b <= k < j ==> raw[k] == body[k - b];
    FindFenceSkips(raw, b, j);
    assert raw[b..j] == body;
  }

  /** Unfolds the fenced-block search once its three positions are known. */
  lemma FenceInteriorFrom(raw: string, i: nat, b: nat, j: nat)
    requires FenceLayout(raw, i, b, j)
    ensures b <= j <= |raw| && FenceInterior(raw) == Some(raw[b..j])
  {
  }

  /** The search for a fence from `from` finds the one at `stop` when no
      backtick lies in between. */
  lemma {:induction false} FindFenceSkips(s: string, from: nat, stop: nat)
    requires from <= stop && FenceAt(s, stop)
    requires forall k :: from <= k < stop ==> s[k] != '`'
    ensures FindFence(s, from) == Some(stop)
    decreases stop - from
  {
    if from < stop {
      FindFenceSkips(s, from + 1, stop);
    }
  }

  /** Skipping white space from `from` stops at `stop` when everything in
      between is white space and `stop` is not. */
  lemma {:induction false} SkipSpacesOver(s: string, from: nat, stop: nat)
    requires from <= stop && stop < |s|
    requires AllSpace(s[from..stop]) && !IsSpace(s[stop])
    ensures SkipSpaces(s, from) == stop
    decreases stop - from
  {
    if from < stop {
      assert IsSpace(s[from..stop][0]);
      assert s[from + 1..stop] == s[from..stop][1..];
      SkipSpacesOver(s, from + 1, stop);
    }
  }

  /** A reply holding one JSON object amid prose without braces yields that
      object when neither the whole reply nor a fenced block parses. */
  lemma {:induction false} BracedBodyRecovered<T>(parse: string -> Option<T>, pre: string, body: string, post: string)
    requires '{' !in pre && '}' !in post
    requires |body| >= 2 && body[0] == '{' && body[|body| - 1] == '}'
    requires parse(pre + body + post).None?
    requires Fails(parse, FenceCandidate(pre + body + post))
    ensures ExtractJson(parse, pre + body + post) == parse(body)
  {
    BraceCandidateOf(pre, body, post);
  }

  /** The braced candidate of prose, an object, and prose is the object. */
  lemma BraceCandidateOf(pre: string, body: string, post: string)
    requires '{' !in pre && '}' !in post
    requires |body| >= 2 && body[0] == '{' && body[|body| - 1] == '}'
    ensures BraceCandidate(pre + body + post) == Some(body)
  {
    var raw := pre + body + post;
    var first := IndexOf(raw, '{');
    var last := LastIndexOf(raw, '}');
    assert raw[|pre|] == '{';
    assert raw[|pre| + |body| - 1] == '}';
    assert forall k :: 0 <= k < |pre| ==> raw[k] == pre[k];
    assert forall k :: |pre| + |body| <= k < |raw| ==> raw[k] == post[k - |pre| - |body|];
    assert first == |pre|;
    assert last == |pre| + |body| - 1;
    assert raw[first..last + 1] == body;
  }
}
