/**
 * The confirmation sent back to the user after a transaction is stored (main.py, line 89):
 * `f"✅ Recorded ₹{amount} for {merchant} ({category})"`, with the three fields already
 * rendered by `str()`. `ParseReply` reads the three fields back out of such a text.
 */
module Reply {
  import opened Wrappers

  /** "✅ Recorded ₹": U+2705 WHITE HEAVY CHECK MARK, the word, U+20B9 INDIAN RUPEE SIGN. */
  const Prefix: string := "\U{2705} Recorded \U{20B9}"
  const ForSep: string := " for "
  const OpenSep: string := " ("
  const Close: string := ")"

  function ReplyText(amount: string, merchant: string, category: string): string
  {
    Prefix + amount + ForSep + merchant + OpenSep + category + Close
  }

  /** The longest prefix of `s` in which `c` does not occur. */
  function TakeUntil(s: string, c: char): (r: string)
    ensures |r| <= |s| && r == s[..|r|]
  {
    if s == [] || s[0] == c then [] else [s[0]] + TakeUntil(s[1..], c)
  }

  /** The longest suffix of `s` in which `c` does not occur. */
  function TakeLastUntil(s: string, c: char): (r: string)
    ensures |r| <= |s| && r == s[|s| - |r|..]
  {
    if s == [] || s[|s| - 1] == c then [] else TakeLastUntil(s[..|s| - 1], c) + [s[|s| - 1]]
  }

  /** `t` with the prefix `p` cut off, when `t` starts with it. */
  function DropPrefix(t: string, p: string): (r: Option<string>)
    ensures r.Some? ==> t == p + r.value
  {
    if |t| >= |p| && t[..|p|] == p then Some(t[|p|..]) else None
  }

  /** `t` with the suffix `p` cut off, when `t` ends with it. */
  function DropSuffix(t: string, p: string): (r: Option<string>)
    ensures r.Some? ==> t == r.value + p
  {
    if |t| >= |p| && t[|t| - |p|..] == p then Some(t[..|t| - |p|]) else None
  }

  lemma DropPrefixOf(p: string, t: string)
    ensures DropPrefix(p + t, p) == Some(t)
  {
    assert (p + t)[..|p|] == p && (p + t)[|p|..] == t;
  }

  lemma DropSuffixOf(t: string, p: string)
    ensures DropSuffix(t + p, p) == Some(t)
  {
    assert (t + p)[|t|..] == p && (t + p)[..|t|] == t;
  }

  /** Splits a confirmation into amount, merchant and category: the amount ends at the first
      space, the category starts after the last opening parenthesis. */
  function ParseReply(t: string): (r: Option<(string, string, string)>)
    ensures r.Some? ==> t == ReplyText(r.value.0, r.value.1, r.value.2)
  {
    var rest :- DropPrefix(t, Prefix);
    var amount := TakeUntil(rest, ' ');
    var body :- DropPrefix(rest[|amount|..], ForSep);
    var inner :- DropSuffix(body, Close);
    var category := TakeLastUntil(inner, '(');
    var merchant :- DropSuffix(inner[..|inner| - |category|], OpenSep);
    Glue(t, rest, amount, body, inner, merchant, category);
    Some((amount, merchant, category))
  }

  lemma Glue(t: string, rest: string, amount: string, body: string, inner: string,
              merchant: string, category: string)
    requires t == Prefix + rest && |amount| <= |rest| && rest == amount + ForSep + body
    requires body == inner + Close && inner == merchant + OpenSep + category
    ensures t == ReplyText(amount, merchant, category)
  {
  }

  lemma {:induction false} TakeUntilStops(x: string, y: string, c: char)
    requires c !in x && |y| > 0 && y[0] == c
    ensures TakeUntil(x + y, c) == x
  {
    if x == [] {
      assert x + y == y;
    } else {
      assert (x + y)[0] == x[0];
      assert (x + y)[1..] == x[1..] + y;
      TakeUntilStops(x[1..], y, c);
    }
  }

  lemma {:induction false} TakeLastUntilStops(x: string, y: string, c: char)
    requires c !in y && |x| > 0 && x[|x| - 1] == c
    ensures TakeLastUntil(x + y, c) == y
  {
    if y == [] {
      assert x + y == x;
    } else {
      var y' := y[..|y| - 1];
      assert (x + y)[|x + y| - 1] == y[|y| - 1];
      assert (x + y)[..|x + y| - 1] == x + y';
      TakeLastUntilStops(x, y', c);
    }
  }

  /** The confirmation can be read back: an amount without spaces and a category without an
      opening parenthesis come out as they went in, whatever the merchant is. */
  lemma ParseReplyText(amount: string, merchant: string, category: string)
    requires ' ' !in amount && '(' !in category
    ensures ParseReply(ReplyText(amount, merchant, category)) == Some((amount, merchant, category))
  {
    var inner := merchant + OpenSep + category;
    var body := inner + Close;
    var afterAmount := ForSep + body;
    var rest := amount + afterAmount;
    assert ReplyText(amount, merchant, category) == Prefix + rest;
    DropPrefixOf(Prefix, rest);
    TakeUntilStops(amount, afterAmount, ' ');
    assert rest[|amount|..] == afterAmount;
    DropPrefixOf(ForSep, body);
    DropSuffixOf(inner, Close);
    TakeLastUntilStops(merchant + OpenSep, category, '(');
    assert inner[..|inner| - |category|] == merchant + OpenSep;
    DropSuffixOf(merchant, OpenSep);
  }
}
