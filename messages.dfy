/**
 The chat message and the text the two read operations of the queue produce: a bracketed list of
 `"key":"data"` entries, one per line, with no escaping of the fields.
 */
module Messages {

  /** A stored chat message: `key` names it, `data` is the text a client posted. */
  datatype Message = Message(key: string, data: string)

  /** The value every slot holds before anything is written to it. */
  const Placeholder := Message("", "")

  /** Number of bytes the UTF-8 encoding of one Unicode scalar value takes. */
  function Utf8Width(c: char): (w: nat)
    ensures 1 <= w <= 4
  {
    if c as int < 0x80 then 1
    else if c as int < 0x800 then 2
    else if c as int < 0x1_0000 then 3
    else 4
  }

  /** Length in bytes of the UTF-8 encoding of `s`: what Rust's `String::len` returns. */
  function Utf8Len(s: string): (n: nat)
    ensures |s| <= n <= 4 * |s|
    ensures (forall i :: 0 <= i < |s| ==> s[i] as int < 0x80) <==> n == |s|
  {
    if s == [] then 0 else Utf8Width(s[0]) + Utf8Len(s[1..])
  }

  /** One rendered entry: `"key":"data"`. */
  function Entry(m: Message): string
  {
    "\"" + m.key + "\":\"" + m.data + "\""
  }

  /** The separator written between two entries. */
  const Separator := ",\r\n"

  /**
   The entries of `s` separated by `Separator`, built from the back, the way the scan loops
   append one entry and then, if another follows, a separator.
   */
  function Join(s: seq<Message>): string
  {
    if |s| == 0 then ""
    else if |s| == 1 then Entry(s[0])
    else Join(s[..|s| - 1]) + Separator + Entry(s[|s| - 1])
  }

  /** The whole response body: an opening bracket and a line break, the entries, a closing bracket. */
  function Render(s: seq<Message>): string
  {
    "[\r\n" + Join(s) + "]"
  }

  /**
   Where the fields sit in an entry: the key right after the opening quote, then `":"`, then the
   data right before the closing quote; five punctuation characters in all.
   */
  lemma EntryLayout(m: Message)
    ensures var r := Entry(m);
      && |r| == |m.key| + |m.data| + 5
      && r[0] == '"' && r[|r| - 1] == '"'
      && r[1..|m.key| + 1] == m.key && r[|m.key| + 1..|m.key| + 4] == "\":\""
      && r[|m.key| + 4..|r| - 1] == m.data
  {
  }

  /**
   The joined text is empty exactly when there are no messages; otherwise it starts with the first
   message's entry and ends with the last one's.
   */
  lemma {:induction false} JoinEnds(s: seq<Message>)
    ensures Join(s) == [] <==> s == []
    ensures s != [] ==> Entry(s[0]) <= Join(s)
    ensures s != [] ==> Join(s)[|Join(s)| - |Entry(s[|s| - 1])|..] == Entry(s[|s| - 1])
  {
    if |s| > 1 {
      JoinEnds(s[..|s| - 1]);
      var front := Join(s[..|s| - 1]);
      assert Join(s) == front + (Separator + Entry(s[|s| - 1]));
      assert s[..|s| - 1][0] == s[0];
    }
  }

  /**
   The body opens with a bracket and a line break and closes with a bracket; it is just the
   brackets exactly when there are no messages, and otherwise the first entry follows the opening
   and the last entry precedes the closing bracket.
   */
  lemma RenderLayout(s: seq<Message>)
    ensures var r := Render(s);
      && r[..3] == "[\r\n" && r[|r| - 1] == ']'
      && (r == "[\r\n]" <==> s == [])
      && (s != [] ==> "[\r\n" + Entry(s[0]) <= r)
      && (s != [] ==> r[|r| - |Entry(s[|s| - 1])| - 1..] == Entry(s[|s| - 1]) + "]")
  {
    JoinEnds(s);
    var r := Render(s);
    var j := Join(s);
    assert r == "[\r\n" + j + "]";
    if s != [] {
      var e := Entry(s[0]);
      assert j[..|e|] == e;
      assert r[..3 + |e|] == "[\r\n" + e;
      var l := Entry(s[|s| - 1]);
      assert j[|j| - |l|..] == l;
      assert r[|r| - |l| - 1..] == j[|j| - |l|..] + "]";
    } else {
      assert r == "[\r\n]";
    }
    if r == "[\r\n]" {
      assert |j| == 0;
    }
  }

  /** Joining from the front gives the same text as joining from the back. */
  lemma {:induction false} JoinCons(m: Message, s: seq<Message>)
    requires s != []
    ensures Join([m] + s) == Entry(m) + Separator + Join(s)
  {
    if |s| == 1 {
      assert ([m] + s)[..1] == [m];
    } else {
      var t := s[..|s| - 1];
      JoinCons(m, t);
      assert ([m] + s)[..|s|] == [m] + t;
      assert ([m] + s)[|s|] == s[|s| - 1];
    }
  }

  /** Text of the two scans when nothing is emitted, and with a single entry. */
  lemma RenderSmall(m: Message)
    ensures Render([]) == "[\r\n]"
    ensures Render([m]) == "[\r\n\"" + m.key + "\":\"" + m.data + "\"]"
  {
  }

  /**
   The rendering does not escape quotes, so two different message lists can give the same body:
   a key that contains `":"` cannot be told apart from a split between key and data.
   */
  lemma RenderIsAmbiguous()
    ensures Message("a\":\"b", "c") != Message("a", "b\":\"c")
    ensures Render([Message("a\":\"b", "c")]) == Render([Message("a", "b\":\"c")])
  {
  }
}
