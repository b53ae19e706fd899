/** Text on its way to Slack: the escaping of control characters, and the posts one
    message is cut into. */
module SlackText {

  // ---------- Escaping ----------

  /** `strings.ReplaceAll` of a single character. */
  function ReplaceAll(s: string, c: char, into: string): string {
    if s == "" then "" else (if s[0] == c then into else [s[0]]) + ReplaceAll(s[1..], c, into)
  }

  function ClearSlackText(text: string): string {
    var s := ReplaceAll(text, '&', "&amp;");
    var t := ReplaceAll(s, '<', "&lt;");
    ReplaceAll(t, '>', "&gt;")
  }

  function EscapeChar(c: char): string {
    match c
    case '&' => "&amp;"
    case '<' => "&lt;"
    case '>' => "&gt;"
    case _ => [c]
  }

  function Escape(text: string): string {
    if text == "" then "" else EscapeChar(text[0]) + Escape(text[1..])
  }

  lemma {:induction false} ReplaceAllAppend(a: string, b: string, c: char, into: string)
    ensures ReplaceAll(a + b, c, into) == ReplaceAll(a, c, into) + ReplaceAll(b, c, into)
  {
    if a == "" {
      assert a + b == b;
    } else {
      assert (a + b)[1..] == a[1..] + b;
      ReplaceAllAppend(a[1..], b, c, into);
    }
  }

  lemma {:induction false} ReplaceAllAbsent(s: string, c: char, into: string)
    requires c !in s
    ensures ReplaceAll(s, c, into) == s
  {
    if s != "" {
      ReplaceAllAbsent(s[1..], c, into);
    }
  }

  lemma ClearAppend(a: string, b: string)
    ensures ClearSlackText(a + b) == ClearSlackText(a) + ClearSlackText(b)
  {
    var a1, b1 := ReplaceAll(a, '&', "&amp;"), ReplaceAll(b, '&', "&amp;");
    ReplaceAllAppend(a, b, '&', "&amp;");
    ReplaceAllAppend(a1, b1, '<', "&lt;");
    ReplaceAllAppend(ReplaceAll(a1, '<', "&lt;"), ReplaceAll(b1, '<', "&lt;"), '>', "&gt;");
  }

  lemma ReplaceOne(d: char, c: char, into: string)
    ensures ReplaceAll([d], c, into) == if d == c then into else [d]
  {
    assert [d][1..] == "";
    assert ReplaceAll("", c, into) == "";
  }

  lemma ClearChar(c: char)
    ensures ClearSlackText([c]) == EscapeChar(c)
  {
    ReplaceOne(c, '&', "&amp;");
    if c == '&' {
      ReplaceAllAbsent("&amp;", '<', "&lt;");
      ReplaceAllAbsent("&amp;", '>', "&gt;");
    } else {
      ReplaceOne(c, '<', "&lt;");
      if c == '<' {
        ReplaceAllAbsent("&lt;", '>', "&gt;");
      } else {
        ReplaceOne(c, '>', "&gt;");
      }
    }
  }

  /** Three replacements over the whole text, in this order, are one substitution
      character by character. */
  lemma {:induction false} ClearIsEscape(text: string)
    ensures ClearSlackText(text) == Escape(text)
  {
    if text != "" {
      assert text == [text[0]] + text[1..];
      ClearAppend([text[0]], text[1..]);
      ClearChar(text[0]);
      ClearIsEscape(text[1..]);
    }
  }

  /** From front to back: three characters become entities, and all others stay. */
  lemma ClearedCharacter(c: char, rest: string)
    ensures ClearSlackText("") == ""
    ensures ClearSlackText([c] + rest)
         == (if c == '&' then "&amp;" else if c == '<' then "&lt;" else if c == '>' then "&gt;" else [c])
            + ClearSlackText(rest)
  {
    ClearAppend([c], rest);
    ClearChar(c);
  }

  predicate StartsWith(s: string, p: string) {
    |p| <= |s| && s[..|p|] == p
  }

  function Unescape(s: string): string
    decreases |s|
  {
    if s == "" then ""
    else if StartsWith(s, "&amp;") then "&" + Unescape(s[5..])
    else if StartsWith(s, "&lt;") then "<" + Unescape(s[4..])
    else if StartsWith(s, "&gt;") then ">" + Unescape(s[4..])
    else [s[0]] + Unescape(s[1..])
  }

  lemma UnescapeFirst(c: char, rest: string)
    ensures Unescape(EscapeChar(c) + rest) == [c] + Unescape(rest)
  {
    var s := EscapeChar(c) + rest;
    assert s[|EscapeChar(c)|..] == rest;
    assert s[..|EscapeChar(c)|] == EscapeChar(c);
    if c !in {'&', '<', '>'} {
      OtherStart(s, "&amp;", 0);
      OtherStart(s, "&lt;", 0);
      OtherStart(s, "&gt;", 0);
      assert s[1..] == rest;
    } else if c != '&' {
      OtherStart(s, "&amp;", 1);
      if c == '>' {
        OtherStart(s, "&lt;", 1);
      }
    }
  }

  lemma OtherStart(s: string, p: string, i: nat)
    requires i < |p| && i < |s| && s[i] != p[i]
    ensures !StartsWith(s, p)
  {
    if |p| <= |s| {
      assert s[..|p|][i] == s[i];
    }
  }

  /** Nothing is lost: the escaped text can be decoded. */
  lemma {:induction false} ClearCanBeUndone(text: string)
    ensures Unescape(ClearSlackText(text)) == text
  {
    ClearIsEscape(text);
    if text != "" {
      UnescapeFirst(text[0], Escape(text[1..]));
      ClearCanBeUndone(text[1..]);
      ClearIsEscape(text[1..]);
    }
  }

  lemma ClearInjective(a: string, b: string)
    requires ClearSlackText(a) == ClearSlackText(b)
    ensures a == b
  {
    ClearCanBeUndone(a);
    ClearCanBeUndone(b);
  }

  /** The order matters: with the ampersand replaced last, two texts become one. */
  lemma AmpersandLastWouldCollide()
    ensures ReplaceAll(ReplaceAll("<", '<', "&lt;"), '&', "&amp;")
        == ReplaceAll(ReplaceAll("&lt;", '<', "&lt;"), '&', "&amp;")
  {
    ReplaceOne('<', '<', "&lt;");
    ReplaceAllAbsent("&lt;", '<', "&lt;");
  }

  // ---------- Posts ----------

  const BLOCK_LIMIT := 49

  datatype Post<Block> = Blocks(blocks: seq<Block>) | Short

  /** A message of 49 blocks or more is posted as a short one. The cutting loop only ever
      sees fewer and so posts all blocks at once, or nothing if there are none. The first
      failing post ends the sending. */
  method SendBlocks<Block>(rawBlock: seq<Block>, accepts: Post<Block> -> bool)
    returns (posts: seq<Post<Block>>, ok: bool)
    ensures posts == if |rawBlock| >= 49 then [Short] else if rawBlock == [] then [] else [Blocks(rawBlock)]
    ensures ok <==> forall i | 0 <= i < |posts| :: accepts(posts[i])
  {
    posts := [];
    var length := |rawBlock|;
    if length >= BLOCK_LIMIT {
      posts := [Short];
      ok := accepts(Short);
      assert posts[0] == Short;
      return;
    }
    var n := 0;
    while n < length
      invariant if n == 0 then posts == [] else n == length && posts == [Blocks(rawBlock)] && accepts(Blocks(rawBlock))
    {
      var d := length - n;
      if d >= 49 {
        d := 49;
      }
      assert rawBlock[n..n + d] == rawBlock;
      posts := posts + [Blocks(rawBlock[n..n + d])];
      if !accepts(Blocks(rawBlock[n..n + d])) {
        assert !accepts(posts[0]);
        return posts, false;
      }
      n := n + d;
    }
    ok := true;
  }
}
