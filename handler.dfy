/** The `/analisar` endpoint: for every URL of the request's `pistas`, in order,
    the page text is acquired, analysed, and every item of a non-empty result
    array is stamped in place with `fonte = url` and appended to the answer.
    The page acquirer is given as the sequence of what it returned for each
    URL position (`null` on any failure); the generative service as one
    `Generator` per URL position; JSON.parse as one `Parser`. */
module Handler {
  import opened JsValues
  import opened Analysis
  import Cleaning

  /** The key every surviving item is stamped with. */
  const SourceKey: string := "fonte"

  /** How one request ends: an answer with its JSON array, or a rejected
      handler (the stamping callback threw a TypeError, and no answer is
      sent by the handler). */
  datatype Outcome = Responded(body: seq<Json>) | Rejected

  /** `item.fonte = url` in non-strict JavaScript: an object gains (or
      overwrites) its `fonte` key; on an array the new property is invisible
      in the JSON answer; on a string, number or boolean it is silently
      ignored. Only `null` makes it throw, hence the precondition. */
  function Stamp(item: Json, url: Json): (r: Json)
    requires !item.Null?
    ensures item.Obj? ==> r.Obj? && r.fields.Keys == item.fields.Keys + {SourceKey}
    ensures item.Obj? ==> r.fields[SourceKey] == url
    ensures item.Obj? ==> forall k :: k in item.fields && k != SourceKey ==> r.fields[k] == item.fields[k]
    ensures !item.Obj? ==> r == item
  {
    match item
    case Obj(f) => Obj(f[SourceKey := url])
    case _ => item
  }

  predicate NoNull(items: seq<Json>) {
    forall k :: 0 <= k < |items| ==> !items[k].Null?
  }

  /** Every item stamped with `url`. */
  function StampAll(items: seq<Json>, url: Json): seq<Json>
    requires NoNull(items)
  {
    seq(|items|, k requires 0 <= k < |items| => Stamp(items[k], url))
  }

  /** The position of the first `null` item, or the length when there is none. */
  function FirstNull(items: seq<Json>): (f: nat)
    ensures f <= |items|
    ensures NoNull(items[..f])
    ensures f < |items| ==> items[f].Null?
    decreases |items|
  {
    if items == [] then 0
    else if items[0].Null? then 0
    else
      assert items[1..][..FirstNull(items[1..])] == items[1..1 + FirstNull(items[1..])];
      1 + FirstNull(items[1..])
  }

  /** `analiseIA.forEach(item => item.fonte = url)`: the items are stamped in
      place, from the first one, until a `null` item makes the callback throw. */
  method StampEach(a: array<Json>, url: Json) returns (ok: bool)
    modifies a
    ensures ok <==> NoNull(old(a[..]))
    ensures var f := FirstNull(old(a[..]));
      a[..] == StampAll(old(a[..])[..f], url) + old(a[..])[f..]
  {
    ghost var before := a[..];
    ghost var f := FirstNull(before);
    var i := 0;
    while i < a.Length
      invariant 0 <= i <= f
      invariant a[..i] == StampAll(before[..i], url)
      invariant a[i..] == before[i..]
    {
      assert a[i] == before[i];
      if a[i].Null? {
        assert i == f;
        return false;
      }
      assert i < f;
      StampAllStep(before, url, i);
      ghost var prev := a[..];
      a[i] := Stamp(a[i], url);
      assert a[..i + 1] == prev[..i] + [Stamp(before[i], url)];
      assert a[i + 1..] == prev[i + 1..];
      i := i + 1;
    }
    assert before[..f] == before;
    return true;
  }

  /** Stamping one more item extends the stamped prefix by that item. */
  lemma StampAllStep(items: seq<Json>, url: Json, i: nat)
    requires i < |items| && NoNull(items[..i + 1])
    ensures NoNull(items[..i])
    ensures StampAll(items[..i + 1], url) == StampAll(items[..i], url) + [Stamp(items[i], url)]
  {
    assert items[..i + 1][..i] == items[..i];
    assert items[..i + 1][i] == items[i];
  }

  /** The items one URL puts into the answer before stamping: those of its
      analysis when its text is truthy and the analysis is a non-empty array;
      none otherwise. */
  function Accepted(page: Option<string>, gen: Generator, parse: Parser): seq<Json> {
    if !TruthyText(page) then []
    else
      var v := AnalyseText(page, gen, parse);
      if Truthy(v) && v.Arr? && |v.items| > 0 then v.items else []
  }

  /** What one URL does to the answer, given the items it would append:
      appends them stamped with its URL, or makes the handler throw when one
      of them is `null`. */
  function Contribution(url: Json, items: seq<Json>): Outcome {
    if NoNull(items) then Responded(StampAll(items, url)) else Rejected
  }

  /** Sequencing: the answers of two runs, one after the other. */
  function Then(first: Outcome, second: Outcome): Outcome {
    if first.Responded? && second.Responded? then Responded(first.body + second.body)
    else Rejected
  }

  /** The answer built from a list of URLs, each with the items it would
      append: each URL's contribution after those of the URLs before it. */
  function Collect(urls: seq<Json>, accepted: seq<seq<Json>>): Outcome
    requires |accepted| == |urls|
    decreases |urls|
  {
    if urls == [] then Responded([])
    else
      var n := |urls| - 1;
      Then(Collect(urls[..n], accepted[..n]), Contribution(urls[n], accepted[n]))
  }

  /** The items each URL would append, URL position by URL position. */
  function AcceptedAll(pages: seq<Option<string>>, gens: seq<Generator>, parse: Parser): seq<seq<Json>>
    requires |gens| == |pages|
  {
    seq(|pages|, i requires 0 <= i < |pages| => Accepted(pages[i], gens[i], parse))
  }

  /** The reference definition of the answer of the handler to a list of URLs. */
  function Assemble(urls: seq<Json>, pages: seq<Option<string>>, gens: seq<Generator>,
                    parse: Parser): Outcome
    requires |pages| == |urls| && |gens| == |urls|
  {
    Collect(urls, AcceptedAll(pages, gens, parse))
  }

  /** The URLs of `req.body.pistas`: none when it is missing or not an array. */
  function UrlsOf(pistas: Option<Json>): seq<Json> {
    if pistas.Some? && pistas.value.Arr? then pistas.value.items else []
  }

  /** `Accepted` computed in the loop: the items one URL would append, none
      when its text is missing or empty, or when its analysis is not a
      non-empty array. */
  method AnalysedItems(texto: Option<string>, gen: Generator, parse: Parser)
    returns (items: seq<Json>)
    ensures items == Accepted(texto, gen, parse)
    ensures items != [] ==> TruthyText(texto) && AnalyseText(texto, gen, parse) == Arr(items)
  {
    items := [];
    if TruthyText(texto) {
      var analise := AnalyseText(texto, gen, parse);
      if Truthy(analise) && analise.Arr? && |analise.items| > 0 {
        items := analise.items;
      }
    }
  }

  /** The stamping of one URL's items: they are copied into an array, stamped
      in place by the `forEach`, and appended; a `null` item makes the
      handler throw. */
  method AppendItems(items: seq<Json>, url: Json) returns (c: Outcome)
    ensures c == Contribution(url, items)
  {
    var a := new Json[|items|](k requires 0 <= k < |items| => items[k]);
    assert a[..] == items;
    var ok := StampEach(a, url);
    if !ok {
      return Rejected;
    }
    assert items[..FirstNull(items)] == items && items[FirstNull(items)..] == [];
    return Responded(a[..]);
  }

  /** The `/analisar` handler: no URLs give the empty answer, otherwise the
      URLs are analysed one after the other. */
  method HandleAnalisar(pistas: Option<Json>, pages: seq<Option<string>>,
                        gens: seq<Generator>, parse: Parser) returns (out: Outcome)
    requires |pages| == |UrlsOf(pistas)| && |gens| == |UrlsOf(pistas)|
    ensures out == Assemble(UrlsOf(pistas), pages, gens, parse)
    ensures UrlsOf(pistas) == [] ==> out == Responded([])
  {
    if pistas.None? || !Truthy(pistas.value) || !pistas.value.Arr? || |pistas.value.items| == 0 {
      return Responded([]);
    }
    out := AnalyseEach(pistas.value.items, pages, gens, parse);
  }

  /** The loop of the handler: each URL's items, stamped, are appended after
      those of the URLs before it; a `null` item makes the handler throw. */
  method AnalyseEach(urls: seq<Json>, pages: seq<Option<string>>,
                     gens: seq<Generator>, parse: Parser) returns (out: Outcome)
    requires |pages| == |urls| && |gens| == |urls|
    ensures out == Assemble(urls, pages, gens, parse)
  {
    ghost var accepted := AcceptedAll(pages, gens, parse);
    var results: seq<Json> := [];
    for i := 0 to |urls|
      invariant Collect(urls[..i], accepted[..i]) == Responded(results)
    {
      CollectStep(urls, accepted, i);
      var url := urls[i];
      var items := AnalysedItems(pages[i], gens[i], parse);
      assert accepted[i] == items;
      if items == [] {
        NothingToAppend(url);
      } else {
        var c := AppendItems(items, url);
        if c.Rejected? {
          RejectionIsFinal(urls, accepted, i + 1);
          return Rejected;
        }
        results := results + c.body;
      }
    }
    assert urls[..|urls|] == urls && accepted[..|urls|] == accepted;
    return Responded(results);
  }

  /** A URL with no items leaves the answer as it is. */
  lemma NothingToAppend(url: Json)
    ensures Contribution(url, []) == Responded([])
    ensures forall o: Outcome :: Then(o, Contribution(url, [])) == o
  {
    assert StampAll([], url) == [];
    forall o: Outcome ensures Then(o, Contribution(url, [])) == o {
      if o.Responded? {
        assert o.body + [] == o.body;
      }
    }
  }

  /** One more URL appends its contribution to the answer so far. */
  lemma CollectStep(urls: seq<Json>, accepted: seq<seq<Json>>, i: nat)
    requires |accepted| == |urls| && i < |urls|
    ensures Collect(urls[..i + 1], accepted[..i + 1])
         == Then(Collect(urls[..i], accepted[..i]), Contribution(urls[i], accepted[i]))
  {
    assert urls[..i + 1][..i] == urls[..i];
    assert accepted[..i + 1][..i] == accepted[..i];
  }

  lemma ThenAssociative(x: Outcome, y: Outcome, z: Outcome)
    ensures Then(Then(x, y), z) == Then(x, Then(y, z))
  {
    if x.Responded? && y.Responded? && z.Responded? {
      assert x.body + y.body + z.body == x.body + (y.body + z.body);
    }
  }

  /** The answer to a concatenation of URL lists is the answer to the first
      list followed by the answer to the second. */
  lemma {:induction false} CollectSplits(urls1: seq<Json>, accepted1: seq<seq<Json>>,
                                         urls2: seq<Json>, accepted2: seq<seq<Json>>)
    requires |accepted1| == |urls1| && |accepted2| == |urls2|
    ensures Collect(urls1 + urls2, accepted1 + accepted2)
         == Then(Collect(urls1, accepted1), Collect(urls2, accepted2))
    decreases |urls2|
  {
    if urls2 == [] {
      assert urls1 + urls2 == urls1 && accepted1 + accepted2 == accepted1;
      var c := Collect(urls1, accepted1);
      if c.Responded? {
        assert c.body + [] == c.body;
      }
    } else {
      var n := |urls2| - 1;
      var m := |urls1| + n;
      var u, a := urls1 + urls2, accepted1 + accepted2;
      assert u[..m] == urls1 + urls2[..n];
      assert a[..m] == accepted1 + accepted2[..n];
      assert u[m] == urls2[n] && a[m] == accepted2[n];
      var last := Contribution(urls2[n], accepted2[n]);
      CollectSplits(urls1, accepted1, urls2[..n], accepted2[..n]);
      ThenAssociative(Collect(urls1, accepted1), Collect(urls2[..n], accepted2[..n]), last);
    }
  }

  /** Once a URL has made the handler throw, no later URL brings the answer
      back. */
  lemma RejectionIsFinal(urls: seq<Json>, accepted: seq<seq<Json>>, i: nat)
    requires |accepted| == |urls| && i <= |urls|
    requires Collect(urls[..i], accepted[..i]) == Rejected
    ensures Collect(urls, accepted) == Rejected
  {
    CollectSplits(urls[..i], accepted[..i], urls[i..], accepted[i..]);
    assert urls[..i] + urls[i..] == urls;
    assert accepted[..i] + accepted[i..] == accepted;
  }

  /** Failure isolation: a URL whose page could not be acquired (or whose text
      is empty) contributes nothing, and the URLs around it contribute exactly
      what they would without it. */
  lemma FailedAcquisitionIsIsolated(urls1: seq<Json>, pages1: seq<Option<string>>,
                                    gens1: seq<Generator>, url: Json, page: Option<string>,
                                    gen: Generator, urls2: seq<Json>,
                                    pages2: seq<Option<string>>, gens2: seq<Generator>,
                                    parse: Parser)
    requires |pages1| == |urls1| && |gens1| == |urls1|
    requires |pages2| == |urls2| && |gens2| == |urls2|
    requires !TruthyText(page)
    ensures Assemble(urls1 + [url] + urls2, pages1 + [page] + pages2, gens1 + [gen] + gens2, parse)
         == Assemble(urls1 + urls2, pages1 + pages2, gens1 + gens2, parse)
  {
    NothingAcceptedIsIsolated(urls1, pages1, gens1, url, page, gen, urls2, pages2, gens2, parse);
  }

  /** A URL whose text was acquired but whose analysis is not a non-empty
      array (`null`, an object, a string, a number, a boolean or `[]`)
      contributes nothing either, and the URLs around it contribute exactly
      what they would without it. */
  lemma UnusableAnalysisIsIsolated(urls1: seq<Json>, pages1: seq<Option<string>>,
                                   gens1: seq<Generator>, url: Json, page: Option<string>,
                                   gen: Generator, urls2: seq<Json>,
                                   pages2: seq<Option<string>>, gens2: seq<Generator>,
                                   parse: Parser)
    requires |pages1| == |urls1| && |gens1| == |urls1|
    requires |pages2| == |urls2| && |gens2| == |urls2|
    requires TruthyText(page)
    requires !IsNonEmptyArray(AnalyseText(page, gen, parse))
    ensures Assemble(urls1 + [url] + urls2, pages1 + [page] + pages2, gens1 + [gen] + gens2, parse)
         == Assemble(urls1 + urls2, pages1 + pages2, gens1 + gens2, parse)
  {
    NonEmptyArrayGuard(AnalyseText(page, gen, parse));
    NothingAcceptedIsIsolated(urls1, pages1, gens1, url, page, gen, urls2, pages2, gens2, parse);
  }

  /** A URL that would append no items can be removed from the inputs
      without changing the answer. */
  lemma NothingAcceptedIsIsolated(urls1: seq<Json>, pages1: seq<Option<string>>,
                                  gens1: seq<Generator>, url: Json, page: Option<string>,
                                  gen: Generator, urls2: seq<Json>,
                                  pages2: seq<Option<string>>, gens2: seq<Generator>,
                                  parse: Parser)
    requires |pages1| == |urls1| && |gens1| == |urls1|
    requires |pages2| == |urls2| && |gens2| == |urls2|
    requires Accepted(page, gen, parse) == []
    ensures Assemble(urls1 + [url] + urls2, pages1 + [page] + pages2, gens1 + [gen] + gens2, parse)
         == Assemble(urls1 + urls2, pages1 + pages2, gens1 + gens2, parse)
  {
    var a1, a2 := AcceptedAll(pages1, gens1, parse), AcceptedAll(pages2, gens2, parse);
    AcceptedAllAppend(pages1 + [page], gens1 + [gen], pages2, gens2, parse);
    AcceptedAllAppend(pages1, gens1, [page], [gen], parse);
    AcceptedAllAppend(pages1, gens1, pages2, gens2, parse);
    assert AcceptedAll([page], [gen], parse) == [[]];
    CollectSkipsEmpty(urls1, a1, url, urls2, a2);
  }

  /** The items of two lists of pages, one after the other, are the items of
      the first list followed by those of the second. */
  lemma AcceptedAllAppend(pages1: seq<Option<string>>, gens1: seq<Generator>,
                          pages2: seq<Option<string>>, gens2: seq<Generator>, parse: Parser)
    requires |gens1| == |pages1| && |gens2| == |pages2|
    ensures AcceptedAll(pages1 + pages2, gens1 + gens2, parse)
         == AcceptedAll(pages1, gens1, parse) + AcceptedAll(pages2, gens2, parse)
  {
  }

  /** A URL with no items can be removed from the list without changing the
      answer. */
  lemma CollectSkipsEmpty(urls1: seq<Json>, a1: seq<seq<Json>>, url: Json,
                          urls2: seq<Json>, a2: seq<seq<Json>>)
    requires |a1| == |urls1| && |a2| == |urls2|
    ensures Collect(urls1 + [url] + urls2, a1 + [[]] + a2) == Collect(urls1 + urls2, a1 + a2)
  {
    var none: seq<seq<Json>> := [[]];
    CollectSplits(urls1, a1, [url], none);
    assert Collect([url], none) == Responded([]) by {
      assert [url][..0] == [] && none[..0] == [];
      NothingToAppend(url);
    }
    CollectSplits(urls1 + [url], a1 + none, urls2, a2);
    CollectSplits(urls1, a1, urls2, a2);
    var c1 := Collect(urls1, a1);
    if c1.Responded? {
      assert c1.body + [] == c1.body;
    }
  }

  /** A URL whose text was acquired but whose analysis failed (the service
      call threw, or JSON.parse rejected the cleaned reply) is not dropped: it
      contributes exactly one record, holding the `erro` message and its URL
      as `fonte`. */
  lemma FailedAnalysisSurfaces(url: Json, t: string, gen: Generator, parse: Parser)
    requires |t| >= MinTextLength
    requires || gen(Prompt(t)).GenFailed?
             || parse(Cleaning.Clean(gen(Prompt(t)).text)).SyntaxError?
    ensures var c := Contribution(url, Accepted(Some(t), gen, parse));
      && c.Responded? && |c.body| == 1 && c.body[0].Obj?
      && c.body[0].fields.Keys == {ErrorKey, SourceKey}
      && c.body[0].fields[SourceKey] == url
      && c.body[0].fields[ErrorKey].Str?
      && ErrorPrefix <= c.body[0].fields[ErrorKey].s
  {
    var m: string;
    if gen(Prompt(t)).GenFailed? {
      m := gen(Prompt(t)).message;
      ServiceFailureGivesErrorRecord(t, gen, parse);
    } else {
      m := parse(Cleaning.Clean(gen(Prompt(t)).text)).message;
      ParseFailureGivesErrorRecord(t, gen, parse);
    }
    ErrorRecordAccepted(Some(t), gen, parse, m);
    StampedErrorRecord(url, m);
  }

  /** An acquired text whose analysis is an error record appends that
      record's single item. */
  lemma ErrorRecordAccepted(page: Option<string>, gen: Generator, parse: Parser, m: string)
    requires TruthyText(page) && AnalyseText(page, gen, parse) == ErrorRecord(m)
    ensures Accepted(page, gen, parse) == ErrorRecord(m).items
  {
  }

  /** The error record, stamped: one object with exactly the keys `erro`
      and `fonte`. */
  lemma StampedErrorRecord(url: Json, m: string)
    ensures var c := Contribution(url, ErrorRecord(m).items);
      && c.Responded? && |c.body| == 1 && c.body[0].Obj?
      && c.body[0].fields.Keys == {ErrorKey, SourceKey}
      && c.body[0].fields[SourceKey] == url
      && c.body[0].fields[ErrorKey].Str?
      && ErrorPrefix <= c.body[0].fields[ErrorKey].s
  {
    assert ErrorPrefix <= ErrorPrefix + m;
  }

  /** Where each item of the answer comes from: the pair (URL position, item
      position among the items that URL appends), in the order the handler
      appends them. */
  function Origins(accepted: seq<seq<Json>>): seq<(nat, nat)>
    decreases |accepted|
  {
    if accepted == [] then []
    else
      var n := |accepted| - 1;
      Origins(accepted[..n]) + seq(|accepted[n]|, j => (n, j))
  }

  /** `x` comes strictly before `y` in URL order, then in item order. */
  predicate Before(x: (nat, nat), y: (nat, nat)) {
    x.0 < y.0 || (x.0 == y.0 && x.1 < y.1)
  }

  /** Every origin names an existing item. */
  predicate OriginsExist(o: seq<(nat, nat)>, accepted: seq<seq<Json>>) {
    forall k :: 0 <= k < |o| ==> o[k].0 < |accepted| && o[k].1 < |accepted[o[k].0]|
  }

  /** Origins strictly increase: URL by URL, and item by item within a URL. */
  predicate StrictlyIncreasing(o: seq<(nat, nat)>) {
    forall k, l :: 0 <= k < l < |o| ==> Before(o[k], o[l])
  }

  /** Item `k` of the answer is the item its origin names, stamped with the
      URL its origin names. */
  predicate StampedFrom(body: seq<Json>, o: seq<(nat, nat)>, urls: seq<Json>,
                        accepted: seq<seq<Json>>)
    requires |accepted| == |urls|
  {
    && |o| == |body|
    && OriginsExist(o, accepted)
    && forall k :: 0 <= k < |o| ==>
         && !accepted[o[k].0][o[k].1].Null?
         && body[k] == Stamp(accepted[o[k].0][o[k].1], urls[o[k].0])
  }

  /** The origins of the answer name existing items, in strictly increasing
      order. */
  lemma {:induction false} OriginsInOrder(accepted: seq<seq<Json>>)
    ensures OriginsExist(Origins(accepted), accepted)
    ensures StrictlyIncreasing(Origins(accepted))
    decreases |accepted|
  {
    if accepted != [] {
      var n := |accepted| - 1;
      var a := accepted[..n];
      OriginsInOrder(a);
      var o0 := Origins(a);
      var o := Origins(accepted);
      var block := seq(|accepted[n]|, j => (n, j));
      assert o == o0 + block;
      forall k | 0 <= k < |o|
        ensures o[k].0 < |accepted| && o[k].1 < |accepted[o[k].0]|
      {
        if k < |o0| {
          assert o[k] == o0[k];
          assert accepted[o0[k].0] == a[o0[k].0];
        } else {
          assert o[k] == block[k - |o0|];
        }
      }
      forall k, l | 0 <= k < l < |o|
        ensures Before(o[k], o[l])
      {
        if l < |o0| {
          assert o[k] == o0[k] && o[l] == o0[l];
        } else if k < |o0| {
          assert o[k] == o0[k] && o[l] == block[l - |o0|];
        } else {
          assert o[k] == block[k - |o0|] && o[l] == block[l - |o0|];
        }
      }
    }
  }

  /** Provenance: every item of the answer is one of the items some URL
      appends, stamped with that URL and otherwise unchanged. */
  lemma {:induction false} ProvenanceOfItems(urls: seq<Json>, accepted: seq<seq<Json>>,
                                             body: seq<Json>)
    requires |accepted| == |urls|
    requires Collect(urls, accepted) == Responded(body)
    ensures StampedFrom(body, Origins(accepted), urls, accepted)
    decreases |urls|
  {
    if urls != [] {
      var n := |urls| - 1;
      var u, a := urls[..n], accepted[..n];
      var prev := Collect(u, a);
      var items := accepted[n];
      var v := Contribution(urls[n], items);
      assert prev.Responded? && v.Responded?;
      ProvenanceOfItems(u, a, prev.body);
      OriginsInOrder(accepted);
      var o0 := Origins(a);
      var o := Origins(accepted);
      var block := seq(|items|, j => (n, j));
      assert body == prev.body + v.body;
      assert o == o0 + block;
      forall k | 0 <= k < |o|
        ensures && !accepted[o[k].0][o[k].1].Null?
                && body[k] == Stamp(accepted[o[k].0][o[k].1], urls[o[k].0])
      {
        if k < |o0| {
          assert o[k] == o0[k];
          assert accepted[o0[k].0] == a[o0[k].0] && urls[o0[k].0] == u[o0[k].0];
          assert body[k] == prev.body[k];
        } else {
          var j := k - |o0|;
          assert o[k] == block[j] == (n, j);
          assert body[k] == v.body[j];
        }
      }
    }
  }

  /** Provenance and order of the handler's answer: each item is an item of
      the analysis of one URL, stamped with that URL and otherwise unchanged,
      and the items appear URL by URL, in the order of the URLs and of each
      analysis. */
  lemma AnswerProvenance(urls: seq<Json>, pages: seq<Option<string>>, gens: seq<Generator>,
                         parse: Parser, body: seq<Json>)
    requires |pages| == |urls| && |gens| == |urls|
    requires Assemble(urls, pages, gens, parse) == Responded(body)
    ensures StampedFrom(body, Origins(AcceptedAll(pages, gens, parse)), urls,
                        AcceptedAll(pages, gens, parse))
    ensures StrictlyIncreasing(Origins(AcceptedAll(pages, gens, parse)))
  {
    ProvenanceOfItems(urls, AcceptedAll(pages, gens, parse), body);
    OriginsInOrder(AcceptedAll(pages, gens, parse));
  }

  /** Position `i` of the items of all URLs is what URL `i` would append. */
  lemma AcceptedAllAt(pages: seq<Option<string>>, gens: seq<Generator>, parse: Parser, i: nat)
    requires |gens| == |pages| && i < |pages|
    ensures AcceptedAll(pages, gens, parse)[i] == Accepted(pages[i], gens[i], parse)
  {
  }

  /** The run answers exactly when no URL would append a `null` item; one
      such item anywhere makes it reject. */
  lemma {:induction false} CollectRespondsIffNoNull(urls: seq<Json>, accepted: seq<seq<Json>>)
    requires |accepted| == |urls|
    ensures Collect(urls, accepted).Responded?
        <==> forall i :: 0 <= i < |urls| ==> NoNull(accepted[i])
    decreases |urls|
  {
    if urls != [] {
      var n := |urls| - 1;
      CollectRespondsIffNoNull(urls[..n], accepted[..n]);
      assert forall i :: 0 <= i < n ==> accepted[..n][i] == accepted[i];
    }
  }

  /** The handler answers exactly when no URL's accepted analysis holds a
      `null` item; a `[null]` reply from the service makes it reject. */
  lemma AssembleRespondsIffNoNull(urls: seq<Json>, pages: seq<Option<string>>,
                                  gens: seq<Generator>, parse: Parser)
    requires |pages| == |urls| && |gens| == |urls|
    ensures Assemble(urls, pages, gens, parse).Responded?
        <==> forall i :: 0 <= i < |urls| ==> NoNull(Accepted(pages[i], gens[i], parse))
  {
    CollectRespondsIffNoNull(urls, AcceptedAll(pages, gens, parse));
    forall i | 0 <= i < |urls|
      ensures AcceptedAll(pages, gens, parse)[i] == Accepted(pages[i], gens[i], parse)
    {
      AcceptedAllAt(pages, gens, parse, i);
    }
  }
}
