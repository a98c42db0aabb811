/** The query string `getBuilder` puts after the endpoint: the `api_key`
    injection into the caller's parameter map, which parameters are sent,
    and the `?k=v&k=v` shape, together with a reader that takes the string
    apart again so that its contents can be stated modulo order. */
module QueryString {
  import opened JavaLang
  import opened JavaText

  /** The caller's `Map<String, String>` of query parameters; values may be `null`. */
  type Entries = map<string, JString>

  const ApiKeyName: string := "api_key"

  /** The map after `if (!query.containsKey("api_key")) query.put("api_key", apiKey)`. */
  function WithApiKey(m: Entries, apiKey: JString): (r: Entries)
    ensures r.Keys == m.Keys + {ApiKeyName}
    ensures forall k :: k in m ==> r[k] == m[k]
    ensures ApiKeyName !in m ==> r[ApiKeyName] == apiKey
  {
    if ApiKeyName in m then m else m[ApiKeyName := apiKey]
  }

  /** A parameter value that is sent: not `null` and not blank after `trim`. */
  predicate Sendable(v: JString) {
    v.Some? && !IsBlank(v.value)
  }

  /** `order` lists every sent parameter of `m` exactly once: one possible
      iteration order of the map's entries, restricted to the kept ones. */
  ghost predicate Enumerates(order: seq<string>, m: Entries) {
    && (forall i, j :: 0 <= i < j < |order| ==> order[i] != order[j])
    && (forall k :: k in order <==> k in m && Sendable(m[k]))
  }

  /** One emitted parameter: the key as is, `=`, and the encoded value. */
  function Segment(key: string, value: string, encode: string -> string): string {
    key + "=" + encode(value)
  }

  /** The segments for the keys of `order`, in that order. */
  function Segments(m: Entries, order: seq<string>, encode: string -> string): (segs: seq<string>)
    requires forall k :: k in order ==> k in m && m[k].Some?
    ensures |segs| == |order|
    ensures forall i :: 0 <= i < |order| ==> segs[i] == Segment(order[i], m[order[i]].value, encode)
    decreases |order|
  {
    if order == [] then []
    else
      var last := order[|order| - 1];
      Segments(m, order[..|order| - 1], encode) + [Segment(last, m[last].value, encode)]
  }

  /** Segments separated by `&`. */
  function JoinAmp(segs: seq<string>): string
    requires |segs| > 0
    decreases |segs|
  {
    if |segs| == 1 then segs[0] else JoinAmp(segs[..|segs| - 1]) + "&" + segs[|segs| - 1]
  }

  /** The query part: empty when nothing is sent, else `?` and the segments joined by `&`. */
  function JoinQuery(segs: seq<string>): (q: string)
    ensures q == [] <==> segs == []
    ensures q != [] ==> q[0] == '?'
  {
    if segs == [] then "" else "?" + JoinAmp(segs)
  }

  /** The query part the builder produces when it visits the kept keys in `order`. */
  function QueryPart(m: Entries, order: seq<string>, encode: string -> string): string
    requires forall k :: k in order ==> k in m && m[k].Some?
  {
    JoinQuery(Segments(m, order, encode))
  }

  /** Appending one more key extends the query part by `?` or `&` and its segment:
      the step the builder's loop takes. */
  lemma QueryPartSnoc(m: Entries, order: seq<string>, key: string, encode: string -> string)
    requires forall k :: k in order ==> k in m && m[k].Some?
    requires key in m && m[key].Some?
    ensures QueryPart(m, order + [key], encode)
         == QueryPart(m, order, encode) + (if order == [] then "?" else "&") + Segment(key, m[key].value, encode)
  {
    var order' := order + [key];
    assert order'[..|order'| - 1] == order;
    var segs := Segments(m, order, encode);
    var segs' := Segments(m, order', encode);
    assert segs' == segs + [Segment(key, m[key].value, encode)];
    if segs != [] {
      assert segs'[..|segs'| - 1] == segs;
    }
  }

  /** The loop of `getBuilder` over the map's entries: each non-null value that
      is not blank after `trim` is appended as `key=encoded value`, behind `?`
      for the first one and `&` after. The entries are visited in an
      unspecified order; `order` records the order of the ones appended. */
  method BuildQueryPart(entries: Entries, encode: string -> string) returns (urlBuilder: string, ghost order: seq<string>)
    ensures urlBuilder == [] <==> forall k :: k in entries ==> !Sendable(entries[k])
    ensures urlBuilder != [] ==> urlBuilder[0] == '?'
    ensures Enumerates(order, entries)
    ensures urlBuilder == QueryPart(entries, order, encode)
  {
    urlBuilder := "";
    var remaining := entries.Keys;
    order := [];
    while remaining != {}
      invariant remaining <= entries.Keys
      invariant forall k :: k in order <==> k in entries && Sendable(entries[k]) && k !in remaining
      invariant forall i, j :: 0 <= i < j < |order| ==> order[i] != order[j]
      invariant urlBuilder == QueryPart(entries, order, encode)
      decreases remaining
    {
      var key :| key in remaining;
      var value := entries[key];
      if value.Some? && |Trim(value.value)| > 0 {
        ghost var before := urlBuilder;
        var separator := if |urlBuilder| == 0 then "?" else "&";
        SeparatorStep(entries, order, encode);
        urlBuilder := urlBuilder + separator;
        var encoded := encode(value.value);
        urlBuilder := urlBuilder + key + "=" + encoded;
        AppendSegment(before, separator, key, value.value, encode);
        QueryPartSnoc(entries, order, key, encode);
        KeptStep(entries, order, remaining, key);
        order := order + [key];
      } else {
        SkippedStep(entries, order, remaining, key);
      }
      remaining := remaining - {key};
    }
    QueryPartEmptyIff(entries, order, encode);
  }

  /** The two appends of one loop step add exactly the separator and the segment. */
  lemma AppendSegment(before: string, separator: string, key: string, value: string, encode: string -> string)
    ensures before + separator + key + "=" + encode(value) == before + separator + Segment(key, value, encode)
  {
  }

  /** The builder is still empty exactly when no key has been appended yet. */
  lemma SeparatorStep(entries: Entries, order: seq<string>, encode: string -> string)
    requires forall k :: k in order ==> k in entries && entries[k].Some?
    ensures |QueryPart(entries, order, encode)| == 0 <==> order == []
  {
    assert |Segments(entries, order, encode)| == |order|;
  }

  /** Visiting a kept key: it joins `order`, which stays free of repeats. */
  lemma KeptStep(entries: Entries, order: seq<string>, remaining: set<string>, key: string)
    requires key in remaining && remaining <= entries.Keys
    requires forall k :: k in order <==> k in entries && Sendable(entries[k]) && k !in remaining
    requires forall i, j :: 0 <= i < j < |order| ==> order[i] != order[j]
    requires entries[key].Some? && |Trim(entries[key].value)| > 0
    ensures forall k :: k in order + [key] <==> k in entries && Sendable(entries[k]) && k !in remaining - {key}
    ensures forall i, j :: 0 <= i < j < |order + [key]| ==> (order + [key])[i] != (order + [key])[j]
  {
    assert key !in order;
  }

  /** Visiting a key that is not kept leaves `order` as it is. */
  lemma SkippedStep(entries: Entries, order: seq<string>, remaining: set<string>, key: string)
    requires key in remaining && remaining <= entries.Keys
    requires forall k :: k in order <==> k in entries && Sendable(entries[k]) && k !in remaining
    requires !(entries[key].Some? && |Trim(entries[key].value)| > 0)
    ensures forall k :: k in order <==> k in entries && Sendable(entries[k]) && k !in remaining - {key}
  {
  }

  /** The query part is empty exactly when no entry is kept, and starts with `?` otherwise. */
  lemma QueryPartEmptyIff(entries: Entries, order: seq<string>, encode: string -> string)
    requires Enumerates(order, entries)
    ensures QueryPart(entries, order, encode) == [] <==> forall k :: k in entries ==> !Sendable(entries[k])
    ensures QueryPart(entries, order, encode) != [] ==> QueryPart(entries, order, encode)[0] == '?'
  {
    assert |Segments(entries, order, encode)| == |order|;
    if order != [] {
      assert order[0] in order;
    }
  }

  // Reading a query part back

  /** Splits at every `&`; always at least one piece. */
  function SplitAmp(s: string): (parts: seq<string>)
    ensures |parts| > 0
    decreases |s|
  {
    if s == [] then [[]]
    else
      var init := SplitAmp(s[..|s| - 1]);
      if s[|s| - 1] == '&' then init + [[]]
      else init[..|init| - 1] + [init[|init| - 1] + [s[|s| - 1]]]
  }

  lemma {:induction false} SplitAmpPlain(t: string)
    requires '&' !in t
    ensures SplitAmp(t) == [t]
    decreases |t|
  {
    if t != [] {
      assert '&' !in t[..|t| - 1];
      SplitAmpPlain(t[..|t| - 1]);
      assert t[..|t| - 1] + [t[|t| - 1]] == t;
    }
  }

  lemma {:induction false} SplitAmpAppend(x: string, t: string)
    requires '&' !in t
    ensures SplitAmp(x + "&" + t) == SplitAmp(x) + [t]
    decreases |t|
  {
    var s := x + "&" + t;
    if t == [] {
      assert s[..|s| - 1] == x;
    } else {
      var t' := t[..|t| - 1];
      assert s[..|s| - 1] == x + "&" + t';
      assert '&' !in t';
      SplitAmpAppend(x, t');
      assert t' + [t[|t| - 1]] == t;
    }
  }

  /** Splitting at `&` undoes joining with `&` when no segment holds one. */
  lemma {:induction false} SplitJoinAmp(segs: seq<string>)
    requires |segs| > 0
    requires forall i :: 0 <= i < |segs| ==> '&' !in segs[i]
    ensures SplitAmp(JoinAmp(segs)) == segs
    decreases |segs|
  {
    if |segs| == 1 {
      SplitAmpPlain(segs[0]);
    } else {
      var init := segs[..|segs| - 1];
      SplitJoinAmp(init);
      SplitAmpAppend(JoinAmp(init), segs[|segs| - 1]);
      assert init + [segs[|segs| - 1]] == segs;
    }
  }

  /** The `(key, value)` pairs of a query part, in order; keys end at the first `=`. */
  function ParseQuery(q: string): seq<(string, string)> {
    if q == [] then []
    else
      var parts := SplitAmp(q[1..]);
      seq(|parts|, i requires 0 <= i < |parts| => SplitAtFirst(parts[i], '='))
  }

  /** The pairs the builder means to send for `order`: each key with its encoded value. */
  function Pairs(m: Entries, order: seq<string>, encode: string -> string): (ps: seq<(string, string)>)
    requires forall k :: k in order ==> k in m && m[k].Some?
    ensures |ps| == |order|
  {
    seq(|order|, i requires 0 <= i < |order| => (order[i], encode(m[order[i]].value)))
  }

  /** Keys are written without encoding, so they must hold no separator for the
      query part to read back; every key the client itself uses is such a name. */
  predicate PlainKey(k: string) {
    '&' !in k && '=' !in k
  }

  /** `application/x-www-form-urlencoded` output never holds a raw `&`. */
  ghost predicate FormEncoder(encode: string -> string) {
    forall v :: '&' !in encode(v)
  }

  /** Reading the built query part back yields exactly the pairs of `order`. */
  lemma ParseQueryPart(m: Entries, order: seq<string>, encode: string -> string)
    requires forall k :: k in m ==> PlainKey(k)
    requires FormEncoder(encode)
    requires forall k :: k in order ==> k in m && m[k].Some?
    ensures ParseQuery(QueryPart(m, order, encode)) == Pairs(m, order, encode)
  {
    var segs := Segments(m, order, encode);
    if segs != [] {
      forall i | 0 <= i < |segs| ensures '&' !in segs[i] {
        var k := order[i];
        assert segs[i] == k + "=" + encode(m[k].value);
        assert '&' !in encode(m[k].value);
      }
      SplitJoinAmp(segs);
      var q := QueryPart(m, order, encode);
      assert q[1..] == JoinAmp(segs);
      var ps := ParseQuery(q);
      forall i | 0 <= i < |order| ensures ps[i] == Pairs(m, order, encode)[i] {
        var k := order[i];
        assert segs[i] == k + ['='] + encode(m[k].value);
        SplitAtFirstJoin(k, '=', encode(m[k].value));
      }
    }
  }

  /** Which parameters are sent, modulo order: a pair is read back from the
      query part exactly when its key maps to a non-null, non-blank value
      and the pair's value is that value encoded. */
  lemma SentIffSendable(m: Entries, order: seq<string>, encode: string -> string, key: string, value: string)
    requires forall k :: k in m ==> PlainKey(k)
    requires FormEncoder(encode)
    requires Enumerates(order, m)
    ensures (key, value) in ParseQuery(QueryPart(m, order, encode))
        <==> key in m && Sendable(m[key]) && value == encode(m[key].value)
  {
    ParseQueryPart(m, order, encode);
    var ps := Pairs(m, order, encode);
    if key in m && Sendable(m[key]) && value == encode(m[key].value) {
      var i :| 0 <= i < |order| && order[i] == key;
      assert ps[i] == (key, value);
    }
  }

  /** Each sent key is read back exactly once. */
  lemma SentOnce(m: Entries, order: seq<string>, encode: string -> string, i: int, j: int)
    requires forall k :: k in m ==> PlainKey(k)
    requires FormEncoder(encode)
    requires Enumerates(order, m)
    requires 0 <= i < j < |ParseQuery(QueryPart(m, order, encode))|
    ensures ParseQuery(QueryPart(m, order, encode))[i].0 != ParseQuery(QueryPart(m, order, encode))[j].0
  {
    ParseQueryPart(m, order, encode);
  }

  /** The query part is empty exactly when no parameter is sent; otherwise it
      is `?` followed by pieces separated by `&`, each a `key=value` pair, so
      there is no leading, trailing or doubled `&`. */
  lemma QueryPartShape(m: Entries, order: seq<string>, encode: string -> string)
    requires forall k :: k in m ==> PlainKey(k)
    requires FormEncoder(encode)
    requires Enumerates(order, m)
    ensures var q := QueryPart(m, order, encode);
      && (q == [] <==> forall k :: k in m ==> !Sendable(m[k]))
      && (q != [] ==> q[0] == '?' && forall p :: p in SplitAmp(q[1..]) ==> '=' in p)
  {
    var q := QueryPart(m, order, encode);
    if order != [] {
      assert order[0] in order;
    }
    if q != [] {
      var segs := Segments(m, order, encode);
      forall i | 0 <= i < |segs| ensures '&' !in segs[i] && '=' in segs[i] {
        var k := order[i];
        assert segs[i] == k + ['='] + encode(m[k].value);
        assert '&' !in encode(m[k].value);
        assert segs[i][|k|] == '=';
      }
      SplitJoinAmp(segs);
      assert q[1..] == JoinAmp(segs);
    }
  }

  /** An `api_key` entry already in the map, even an empty one, is kept as it
      is: an empty one sends no `api_key` at all, whatever key is configured. */
  lemma PresentEmptyApiKeyNotSent(m: Entries, apiKey: JString, order: seq<string>, encode: string -> string, value: string)
    requires forall k :: k in m ==> PlainKey(k)
    requires FormEncoder(encode)
    requires ApiKeyName in m && m[ApiKeyName] == Some("")
    requires Enumerates(order, WithApiKey(m, apiKey))
    ensures (ApiKeyName, value) !in ParseQuery(QueryPart(WithApiKey(m, apiKey), order, encode))
  {
    SentIffSendable(WithApiKey(m, apiKey), order, encode, ApiKeyName, value);
  }

  /** Without an `api_key` entry, the configured key is sent when it is
      non-null and non-blank, and no `api_key` is sent otherwise. */
  lemma ConfiguredApiKeySent(m: Entries, apiKey: JString, order: seq<string>, encode: string -> string, value: string)
    requires forall k :: k in m ==> PlainKey(k)
    requires FormEncoder(encode)
    requires ApiKeyName !in m
    requires Enumerates(order, WithApiKey(m, apiKey))
    ensures (ApiKeyName, value) in ParseQuery(QueryPart(WithApiKey(m, apiKey), order, encode))
        <==> Sendable(apiKey) && value == encode(apiKey.value)
  {
    SentIffSendable(WithApiKey(m, apiKey), order, encode, ApiKeyName, value);
  }
}
