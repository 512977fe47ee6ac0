/**
 * The question request URL that `startFetch` builds: the endpoint, the fixed
 * parameters, then `category`, `difficulty` and `token`, each only when present.
 * A query parser reads the parameters back, which states what the URL carries.
 */
module Query {
  import opened Wrappers
  import Decimal

  datatype QueryItem = QueryItem(name: string, value: string)

  function ItemText(item: QueryItem): string {
    item.name + "=" + item.value
  }

  /** `name=value` pairs joined by `&`, built from the last pair backwards. */
  function Join(items: seq<QueryItem>): string
    decreases |items|
  {
    if |items| == 0 then ""
    else if |items| == 1 then ItemText(items[0])
    else Join(items[..|items| - 1]) + "&" + ItemText(items[|items| - 1])
  }

  /** The pieces of `s` between `sep` characters (at least one piece). */
  function Split(s: string, sep: char): (parts: seq<string>)
    ensures |parts| > 0
    decreases |s|
  {
    if |s| == 0 then [""]
    else
      var init := Split(s[..|s| - 1], sep);
      var last := s[|s| - 1];
      if last == sep then init + [""]
      else init[..|init| - 1] + [init[|init| - 1] + [last]]
  }

  /** A pair split at its first `=`; a piece without `=` is a name with an empty value. */
  function ParseItem(p: string): QueryItem
    decreases |p|
  {
    if |p| == 0 then QueryItem("", "")
    else if p[0] == '=' then QueryItem("", p[1..])
    else var rest := ParseItem(p[1..]); QueryItem([p[0]] + rest.name, rest.value)
  }

  function ParseQuery(q: string): seq<QueryItem> {
    var parts := Split(q, '&');
    seq(|parts|, i requires 0 <= i < |parts| => ParseItem(parts[i]))
  }

  /** An item the parser can read back: no `&` anywhere, no `=` in the name. */
  predicate Plain(item: QueryItem) {
    '&' !in item.name && '&' !in item.value && '=' !in item.name
  }

  predicate AllPlain(items: seq<QueryItem>) {
    forall i :: 0 <= i < |items| ==> Plain(items[i])
  }

  lemma {:induction false} SplitWithoutSeparator(s: string, sep: char)
    requires sep !in s
    ensures Split(s, sep) == [s]
    decreases |s|
  {
    if |s| > 0 {
      SplitWithoutSeparator(s[..|s| - 1], sep);
      assert s[..|s| - 1] + [s[|s| - 1]] == s;
    }
  }

  lemma {:induction false} SplitAfterSeparator(x: string, sep: char, y: string)
    requires sep !in y
    ensures Split(x + [sep] + y, sep) == Split(x, sep) + [y]
    decreases |y|
  {
    var s := x + [sep] + y;
    if |y| == 0 {
      assert s[..|s| - 1] == x;
    } else {
      var y' := y[..|y| - 1];
      assert s[..|s| - 1] == x + [sep] + y';
      SplitAfterSeparator(x, sep, y');
      assert y' + [y[|y| - 1]] == y;
    }
  }

  lemma {:induction false} ParseItemText(item: QueryItem)
    requires '=' !in item.name
    ensures ParseItem(ItemText(item)) == item
    decreases |item.name|
  {
    var p := ItemText(item);
    if |item.name| == 0 {
      assert p[1..] == item.value;
    } else {
      var rest := QueryItem(item.name[1..], item.value);
      assert p[1..] == ItemText(rest);
      ParseItemText(rest);
      assert [item.name[0]] + item.name[1..] == item.name;
    }
  }

  lemma PlainItemText(item: QueryItem)
    requires Plain(item)
    ensures '&' !in ItemText(item)
  {
    var t := ItemText(item);
    forall i | 0 <= i < |t| ensures t[i] != '&' {
      if i < |item.name| {
        assert t[i] == item.name[i];
      } else if i > |item.name| {
        assert t[i] == item.value[i - |item.name| - 1];
      }
    }
  }

  lemma {:induction false} SplitJoin(items: seq<QueryItem>)
    requires |items| > 0 && AllPlain(items)
    ensures Split(Join(items), '&') == seq(|items|, i requires 0 <= i < |items| => ItemText(items[i]))
    decreases |items|
  {
    var n := |items|;
    var texts := seq(n, i requires 0 <= i < n => ItemText(items[i]));
    PlainItemText(items[n - 1]);
    if n == 1 {
      SplitWithoutSeparator(ItemText(items[0]), '&');
    } else {
      var init := items[..n - 1];
      SplitJoin(init);
      var initTexts := seq(n - 1, i requires 0 <= i < n - 1 => ItemText(init[i]));
      SplitAfterSeparator(Join(init), '&', ItemText(items[n - 1]));
      assert Join(items) == Join(init) + ['&'] + ItemText(items[n - 1]);
      assert texts == initTexts + [ItemText(items[n - 1])];
    }
  }

  /** Parsing a joined query gives back exactly its items, in order. */
  lemma ParseJoin(items: seq<QueryItem>)
    requires |items| > 0 && AllPlain(items)
    ensures ParseQuery(Join(items)) == items
  {
    SplitJoin(items);
    forall i | 0 <= i < |items| ensures ParseItem(ItemText(items[i])) == items[i] {
      ParseItemText(items[i]);
    }
  }

  const QuestionEndpoint: string := "https://opentdb.com/api.php?"

  /** The parameters of a question request, in the order they are appended. */
  function QuestionParams(amount: int, category: Option<int>, difficulty: Option<string>,
                          token: Option<string>): seq<QueryItem>
  {
    [QueryItem("amount", Decimal.IntToString(amount)), QueryItem("type", "multiple"),
     QueryItem("encode", "base64")]
    + (if category.Some? then [QueryItem("category", Decimal.IntToString(category.value))] else [])
    + (if difficulty.Some? then [QueryItem("difficulty", difficulty.value)] else [])
    + (if token.Some? then [QueryItem("token", token.value)] else [])
  }

  function QuestionURL(amount: int, category: Option<int>, difficulty: Option<string>,
                       token: Option<string>): string
  {
    QuestionEndpoint + Join(QuestionParams(amount, category, difficulty, token))
  }

  lemma Assoc(a: string, b: string, c: string)
    ensures (a + b) + c == a + (b + c)
  {
  }

  lemma JoinSnoc(items: seq<QueryItem>, item: QueryItem)
    requires |items| > 0
    ensures Join(items + [item]) == Join(items) + "&" + ItemText(item)
  {
    var s := items + [item];
    assert s[..|s| - 1] == items && s[|s| - 1] == item;
  }

  /** Appending `&name=value` to a URL appends the pair to its query. */
  lemma AppendItem(endpoint: string, url: string, items: seq<QueryItem>, item: QueryItem)
    requires |items| > 0 && url == endpoint + Join(items)
    ensures url + "&" + ItemText(item) == endpoint + Join(items + [item])
  {
    JoinSnoc(items, item);
    Assoc(endpoint, Join(items), "&");
    Assoc(endpoint, Join(items) + "&", ItemText(item));
  }

  /** A literal `&name=` followed by a value is the `&` and the pair `name=value`. */
  lemma AppendLiteral(url: string, literal: string, name: string, value: string)
    requires literal == "&" + name + "="
    ensures url + (literal + value) == url + "&" + ItemText(QueryItem(name, value))
  {
    Assoc("&", name + "=", value);
    Assoc(url, "&", name + "=" + value);
  }

  /** The three fixed parameters, as one literal with the amount spliced in. */
  lemma FixedParamsText(a: string)
    ensures QuestionEndpoint + Join([QueryItem("amount", a), QueryItem("type", "multiple"),
                                     QueryItem("encode", "base64")])
         == "https://opentdb.com/api.php?amount=" + a + "&type=multiple&encode=base64"
  {
    var i0, i1, i2 := QueryItem("amount", a), QueryItem("type", "multiple"), QueryItem("encode", "base64");
    var e, p, t, c := QuestionEndpoint, "amount=", "&type=multiple", "&encode=base64";
    assert e + p == "https://opentdb.com/api.php?amount=";
    assert t + c == "&type=multiple&encode=base64";
    assert "&" + ItemText(i1) == t;
    assert "&" + ItemText(i2) == c;
    JoinSnoc([i0], i1);
    assert [i0] + [i1] == [i0, i1];
    JoinSnoc([i0, i1], i2);
    assert [i0, i1] + [i2] == [i0, i1, i2];
    assert Join([i0]) == p + a;
    Assoc(p + a, "&", ItemText(i1));
    Assoc(p + a + t, "&", ItemText(i2));
    assert Join([i0, i1, i2]) == p + a + t + c;
    Assoc(e, p, a);
    Assoc(e, p + a, t);
    Assoc(e, p + a + t, c);
    Assoc(e + p + a, t, c);
  }

  /**
   * The URL as `startFetch` builds it, by appending to a `var`: the fixed
   * parameters first, then each optional parameter that is present.
   */
  method BuildQuestionURL(amount: int, category: Option<int>, difficulty: Option<string>,
                          token: Option<string>) returns (url: string)
    ensures url == QuestionURL(amount, category, difficulty, token)
  {
    url := "https://opentdb.com/api.php?amount=" + Decimal.IntToString(amount)
           + "&type=multiple&encode=base64";
    var items := [QueryItem("amount", Decimal.IntToString(amount)), QueryItem("type", "multiple"),
                  QueryItem("encode", "base64")];
    FixedParamsText(Decimal.IntToString(amount));
    if category.Some? {
      var item := QueryItem("category", Decimal.IntToString(category.value));
      AppendLiteral(url, "&category=", item.name, item.value);
      AppendItem(QuestionEndpoint, url, items, item);
      url := url + ("&category=" + item.value);
      items := items + [item];
    }
    if difficulty.Some? {
      var item := QueryItem("difficulty", difficulty.value);
      AppendLiteral(url, "&difficulty=", item.name, item.value);
      AppendItem(QuestionEndpoint, url, items, item);
      url := url + ("&difficulty=" + item.value);
      items := items + [item];
    }
    if token.Some? {
      var item := QueryItem("token", token.value);
      AppendLiteral(url, "&token=", item.name, item.value);
      AppendItem(QuestionEndpoint, url, items, item);
      url := url + ("&token=" + item.value);
      items := items + [item];
    }
    assert items == QuestionParams(amount, category, difficulty, token);
  }

  /**
   * What the question URL carries: it starts with the endpoint, and a query
   * parser reads back `amount`, `type=multiple`, `encode=base64`, then
   * `category`, `difficulty` and `token` in that order, each exactly when
   * present (provided the free-text values hold no `&`).
   */
  lemma QuestionURLCarriesParams(amount: int, category: Option<int>, difficulty: Option<string>,
                                 token: Option<string>)
    requires difficulty.Some? ==> '&' !in difficulty.value
    requires token.Some? ==> '&' !in token.value
    ensures var url := QuestionURL(amount, category, difficulty, token);
      && QuestionEndpoint <= url
      && ParseQuery(url[|QuestionEndpoint|..]) == QuestionParams(amount, category, difficulty, token)
  {
    var items := QuestionParams(amount, category, difficulty, token);
    QuestionParamsPlain(amount, category, difficulty, token);
    ParseJoin(items);
    PrefixAndRest(QuestionEndpoint, Join(items));
  }

  lemma PrefixAndRest(prefix: string, rest: string)
    ensures prefix <= prefix + rest && (prefix + rest)[|prefix|..] == rest
  {
  }

  lemma DecimalItemPlain(name: string, n: int)
    requires '&' !in name && '=' !in name
    ensures Plain(QueryItem(name, Decimal.IntToString(n)))
  {
    Decimal.IntToStringAlphabet(n);
  }

  lemma PlainConcat(a: seq<QueryItem>, b: seq<QueryItem>)
    requires AllPlain(a) && AllPlain(b)
    ensures AllPlain(a + b)
  {
    forall i | 0 <= i < |a + b| ensures Plain((a + b)[i]) {
      if i >= |a| { assert (a + b)[i] == b[i - |a|]; }
    }
  }

  lemma QuestionParamsPlain(amount: int, category: Option<int>, difficulty: Option<string>,
                            token: Option<string>)
    requires difficulty.Some? ==> '&' !in difficulty.value
    requires token.Some? ==> '&' !in token.value
    ensures AllPlain(QuestionParams(amount, category, difficulty, token))
  {
    var fixed := [QueryItem("amount", Decimal.IntToString(amount)), QueryItem("type", "multiple"),
                  QueryItem("encode", "base64")];
    var c := if category.Some? then [QueryItem("category", Decimal.IntToString(category.value))] else [];
    var d := if difficulty.Some? then [QueryItem("difficulty", difficulty.value)] else [];
    var t := if token.Some? then [QueryItem("token", token.value)] else [];
    FixedParamsPlain(amount);
    OptionalParamsPlain(category, difficulty, token);
    PlainConcat(fixed, c);
    PlainConcat(fixed + c, d);
    PlainConcat(fixed + c + d, t);
  }

  lemma FixedParamsPlain(amount: int)
    ensures AllPlain([QueryItem("amount", Decimal.IntToString(amount)), QueryItem("type", "multiple"),
                      QueryItem("encode", "base64")])
  {
    DecimalItemPlain("amount", amount);
    assert Plain(QueryItem("type", "multiple"));
    assert Plain(QueryItem("encode", "base64"));
  }

  lemma OptionalParamsPlain(category: Option<int>, difficulty: Option<string>, token: Option<string>)
    requires difficulty.Some? ==> '&' !in difficulty.value
    requires token.Some? ==> '&' !in token.value
    ensures AllPlain(if category.Some? then [QueryItem("category", Decimal.IntToString(category.value))] else [])
    ensures AllPlain(if difficulty.Some? then [QueryItem("difficulty", difficulty.value)] else [])
    ensures AllPlain(if token.Some? then [QueryItem("token", token.value)] else [])
  {
    if category.Some? { DecimalItemPlain("category", category.value); }
    if difficulty.Some? { assert Plain(QueryItem("difficulty", difficulty.value)); }
    if token.Some? { assert Plain(QueryItem("token", token.value)); }
  }
}
