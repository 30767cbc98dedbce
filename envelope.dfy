/**
 * The JSON body of the context-test request: the decision model text, with
 * a backslash put before each double quote, placed between a fixed opening
 * (a sample context and the `model` key) and the model's closing tag
 * followed by the end of the JSON object.
 */
module Envelope {

  const ContextPrefix := "{\"context\": {\"n\" : 1, \"m\" : 2}, \"model\": \""
  const ClosingTag := "</dmn:definitions>"
  const ObjectEnd := "\"}"

  /** `s.replace(/"/g, '\\"')` */
  function EscapeQuotes(s: string): (r: string)
    ensures |r| == |s| + multiset(s)['"']
    ensures forall i :: 0 <= i < |r| && r[i] == '"' ==> 0 < i && r[i - 1] == '\\'
  {
    if s == [] then []
    else
      assert s == [s[0]] + s[1..];
      var rest := EscapeQuotes(s[1..]);
      var head := if s[0] == '"' then ['\\', '"'] else [s[0]];
      assert forall i :: |head| <= i < |head + rest| ==> (head + rest)[i] == rest[i - |head|];
      head + rest
  }

  /** Removes the backslash of every backslash-quote pair, reading left to right. */
  function UnescapeQuotes(s: string): string {
    if s == [] then []
    else if |s| >= 2 && s[0] == '\\' && s[1] == '"' then ['"'] + UnescapeQuotes(s[2..])
    else [s[0]] + UnescapeQuotes(s[1..])
  }

  /** An escaped text never starts with a quote. */
  lemma EscapedHead(s: string)
    requires s != []
    ensures EscapeQuotes(s)[0] != '"'
  {
  }

  /** Escaping loses nothing: the inserted backslashes are exactly the ones removed again. */
  lemma {:induction false} UnescapeEscape(s: string)
    ensures UnescapeQuotes(EscapeQuotes(s)) == s
  {
    if s != [] {
      UnescapeEscape(s[1..]);
      var rest := EscapeQuotes(s[1..]);
      if s[0] == '"' {
        assert EscapeQuotes(s) == ['\\', '"'] + rest;
        assert (['\\', '"'] + rest)[2..] == rest;
      } else {
        assert EscapeQuotes(s) == [s[0]] + rest;
        if rest != [] {
          EscapedHead(s[1..]);
        }
        assert ([s[0]] + rest)[1..] == rest;
      }
      assert s == [s[0]] + s[1..];
    }
  }

  /** Escaping works piecewise. */
  lemma {:induction false} EscapeAppend(a: string, b: string)
    ensures EscapeQuotes(a + b) == EscapeQuotes(a) + EscapeQuotes(b)
  {
    if a != [] {
      var head := if a[0] == '"' then ['\\', '"'] else [a[0]];
      assert (a + b)[0] == a[0] && (a + b)[1..] == a[1..] + b;
      assert EscapeQuotes(a + b) == head + EscapeQuotes(a[1..] + b);
      EscapeAppend(a[1..], b);
    } else {
      assert a + b == b;
    }
  }

  /** Text without quotes is left as it is. */
  lemma {:induction false} EscapeQuoteFree(s: string)
    requires '"' !in s
    ensures EscapeQuotes(s) == s
  {
    if s != [] {
      assert s == [s[0]] + s[1..];
      EscapeQuoteFree(s[1..]);
    }
  }

  /** The request body for the model text `model`. */
  function Envelope(model: string): (r: string)
    ensures |r| == |ContextPrefix| + |model| + multiset(model)['"'] + |ClosingTag| + |ObjectEnd|
    ensures r[..|ContextPrefix|] == ContextPrefix
    ensures r[|r| - |ObjectEnd|..] == ObjectEnd
  {
    ContextPrefix + EscapeQuotes(model) + ClosingTag + ObjectEnd
  }

  /** The middle of a three-part concatenation. */
  lemma Middle(a: string, b: string, c: string)
    ensures (a + b + c)[|a|..|a + b + c| - |c|] == b
  {
  }

  lemma ClosingTagQuoteFree()
    ensures '"' !in ClosingTag
  {
  }

  /** Escaped text followed by quote-free text unescapes to the original followed by that text. */
  lemma UnescapeEscapeThen(m: string, t: string)
    requires '"' !in t
    ensures UnescapeQuotes(EscapeQuotes(m) + t) == m + t
  {
    EscapeQuoteFree(t);
    EscapeAppend(m, t);
    UnescapeEscape(m + t);
  }

  /** The string value of the `model` key unescapes to the model text followed by its closing tag. */
  lemma EnvelopeEmbedsModel(model: string)
    ensures var r := Envelope(model);
            UnescapeQuotes(r[|ContextPrefix|..|r| - |ObjectEnd|]) == model + ClosingTag
  {
    var r := Envelope(model);
    var body := EscapeQuotes(model) + ClosingTag;
    assert r == ContextPrefix + body + ObjectEnd;
    Middle(ContextPrefix, body, ObjectEnd);
    ClosingTagQuoteFree();
    UnescapeEscapeThen(model, ClosingTag);
  }
}
