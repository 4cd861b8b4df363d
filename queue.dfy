/**
 The fixed-capacity message queue of the chat service: a vector of `len` slots used as a ring, with a
 cursor on the most recently written slot. A push overwrites the slot after the cursor; the two scans
 walk the ring from the oldest slot to the newest and render what they visit.
 */
module RingQueue {
  import opened Messages

  /** For `0 <= a < 2 * n`, the remainder by `n` is `a` or `a - n`. */
  lemma ModBelowTwice(a: int, n: int)
    requires 0 < n && 0 <= a < 2 * n
    ensures a % n == if a < n then a else a - n
  {
    if a < n {
      assert a == 0 * n + a;
    } else {
      assert a == 1 * n + (a - n);
    }
  }

  /** `i` reduced into `[0, n)` by at most one subtraction. */
  function Wrap(i: nat, n: nat): (j: nat)
    requires i < 2 * n
    ensures j < n
  {
    if i < n then i else i - n
  }

  // ---------------------------------------------------------------------------------------------
  // The oldest-first order of the ring

  /**
   The slots of a ring whose newest entry sits at `end`, oldest first: the slots after `end`,
   then the slots up to and including `end`.
   */
  function OldestFirst(slots: seq<Message>, end: nat): (s: seq<Message>)
    requires end < |slots|
    ensures |s| == |slots|
  {
    slots[end + 1..] + slots[..end + 1]
  }

  /** The oldest-first order visits every slot exactly once: it is a permutation of the slots. */
  lemma OldestFirstIsPermutation(slots: seq<Message>, end: nat)
    requires end < |slots|
    ensures multiset(OldestFirst(slots, end)) == multiset(slots)
  {
    assert slots == slots[..end + 1] + slots[end + 1..];
  }

  /**
   Position `k` of the oldest-first order is slot `(end + 1 + k) % len`, which is where `k` steps of
   `index = (index + 1) % len` lead from `(end + 1) % len`.
   */
  lemma OldestFirstAt(slots: seq<Message>, end: nat, k: nat)
    requires end < |slots| && k < |slots|
    ensures (end + 1 + k) % |slots| == Advance((end + 1) % |slots|, |slots|, k)
    ensures OldestFirst(slots, end)[k] == slots[(end + 1 + k) % |slots|]
  {
    var n := |slots|;
    ModBelowTwice(end + 1, n);
    ModBelowTwice(end + 1 + k, n);
    AdvanceValue((end + 1) % n, n, k);
    if end + 1 < n {
      ModBelowTwice(end + 1 + k, n);
    }
  }

  /** The same position, without remainders: the form the scan loops keep as their invariant. */
  lemma OldestFirstWrapped(slots: seq<Message>, end: nat, k: nat)
    requires end < |slots| && k < |slots|
    ensures OldestFirst(slots, end)[k] == slots[Wrap(Wrap(end + 1, |slots|) + k, |slots|)]
  {
  }

  /**
   A sequence with the same length as `slots` whose `k`-th element is the slot `k` steps after
   `first`, the slot after the cursor, is the oldest-first order.
   */
  lemma OldestFirstByIndex(slots: seq<Message>, end: nat, n: nat, first: nat, s: seq<Message>)
    requires end < |slots| == n && first == Wrap(end + 1, n) && |s| == n
    requires forall k :: 0 <= k < |s| ==> s[k] == slots[Wrap(first + k, n)]
    ensures s == OldestFirst(slots, end)
  {
    forall k | 0 <= k < |s|
      ensures s[k] == OldestFirst(slots, end)[k]
    {
      OldestFirstWrapped(slots, end, k);
    }
  }

  /**
   The oldest-first order, as the scans read it: the `k`-th element is the slot `k` steps after
   `first`, the slot after the cursor.
   */
  lemma ScanOrder(slots: seq<Message>, end: nat, n: nat, first: nat) returns (s: seq<Message>)
    requires end < |slots| == n && first == Wrap(end + 1, n)
    ensures |s| == n
    ensures forall k :: 0 <= k < |s| ==> s[k] == slots[Wrap(first + k, n)]
  {
    s := OldestFirst(slots, end);
    forall k | 0 <= k < |s|
      ensures s[k] == slots[Wrap(first + k, n)]
    {
      OldestFirstWrapped(slots, end, k);
    }
  }

  /**
   Overwriting the slot after the cursor and moving the cursor there drops the oldest entry of the
   oldest-first order and appends the new one.
   */
  lemma OldestFirstAfterOverwrite(slots: seq<Message>, end: nat, m: Message)
    requires end < |slots|
    ensures OldestFirst(slots[(end + 1) % |slots| := m], (end + 1) % |slots|)
         == OldestFirst(slots, end)[1..] + [m]
  {
    var n := |slots|;
    ModBelowTwice(end + 1, n);
    var e := (end + 1) % n;
    var t := slots[e := m];
    if end + 1 < n {
      assert t[e + 1..] == slots[end + 2..];
      assert t[..e + 1] == slots[..end + 1] + [m];
      assert OldestFirst(slots, end)[1..] == slots[end + 2..] + slots[..end + 1];
    } else {
      assert e == 0;
      assert t[1..] == slots[1..];
      assert OldestFirst(slots, end) == slots;
    }
  }

  // ---------------------------------------------------------------------------------------------
  // What the ring holds after a history of pushes

  /** `n` placeholder messages: the contents of a new queue of capacity `n`. */
  function Placeholders(n: nat): (p: seq<Message>)
    ensures |p| == n
    ensures forall i :: 0 <= i < n ==> p[i] == Placeholder
  {
    seq(n, _ => Placeholder)
  }

  /**
   What a capacity-`n` queue holds, oldest first, after the messages of `history` were pushed in
   order: each push drops the oldest entry and appends the pushed one.
   */
  function Window(n: nat, history: seq<Message>): (w: seq<Message>)
    ensures |w| == n
  {
    if n == 0 || history == [] then Placeholders(n)
    else Window(n, history[..|history| - 1])[1..] + [history[|history| - 1]]
  }

  /** The replay step, for a history written as a prefix and a last push. */
  lemma WindowAfterPush(n: nat, history: seq<Message>, m: Message)
    requires 0 < n
    ensures Window(n, history + [m]) == Window(n, history)[1..] + [m]
  {
    assert (history + [m])[..|history|] == history;
  }

  /**
   The window in closed form: the last `n` of the placeholders followed by the history. So it holds
   the last `n` pushed messages in push order once there are that many, and before that the
   remaining placeholders followed by everything pushed.
   */
  lemma {:induction false} WindowShape(n: nat, history: seq<Message>)
    ensures Window(n, history) == (Placeholders(n) + history)[|history|..]
    ensures |history| >= n ==> Window(n, history) == history[|history| - n..]
    ensures |history| < n ==> Window(n, history) == Placeholders(n - |history|) + history
  {
    if n > 0 && history != [] {
      var h := history[..|history| - 1];
      var m := history[|history| - 1];
      WindowShape(n, h);
      assert history == h + [m];
      assert Placeholders(n) + history == (Placeholders(n) + h) + [m];
    }
  }

  /**
   Once more than `n` messages have been pushed, the first one is gone (when it was not pushed
   again later): `n + 1` distinct pushes leave the 2nd to the (n+1)th.
   */
  lemma WindowDropsFirst(n: nat, history: seq<Message>)
    requires 0 < n < |history|
    requires history[0] !in history[1..]
    ensures history[0] !in Window(n, history)
  {
    WindowShape(n, history);
    assert Window(n, history) == history[1..][|history| - 1 - n..];
  }

  // ---------------------------------------------------------------------------------------------
  // The marker search of get_from

  /**
   The first position from `i` on whose message has key `key`, or `|s|` when there is none.
   */
  function MarkerFrom(s: seq<Message>, key: string, i: nat): (p: nat)
    requires i <= |s|
    ensures i <= p <= |s|
    decreases |s| - i
  {
    if i == |s| then |s|
    else if s[i].key == key then i
    else MarkerFrom(s, key, i + 1)
  }

  /** MarkerFrom finds the first match: every position before it differs, and it matches if in range. */
  lemma {:induction false} MarkerFromIsFirst(s: seq<Message>, key: string, i: nat)
    requires i <= |s|
    ensures MarkerFrom(s, key, i) < |s| ==> s[MarkerFrom(s, key, i)].key == key
    ensures forall q :: i <= q < MarkerFrom(s, key, i) ==> s[q].key != key
    decreases |s| - i
  {
    if i < |s| && s[i].key != key {
      MarkerFromIsFirst(s, key, i + 1);
    }
  }

  /**
   Where get_from starts emitting: the first position from 1 on whose key is `key`, or the length
   of `s` when there is none. Position 0, the oldest, is never compared.
   */
  function MarkerPosition(s: seq<Message>, key: string): (p: nat)
    ensures p <= |s|
  {
    if s == [] then 0 else MarkerFrom(s, key, 1)
  }

  /** The suffix of the oldest-first order that get_from emits. */
  function FromMarker(s: seq<Message>, key: string): seq<Message>
  {
    s[MarkerPosition(s, key)..]
  }

  /**
   get_from emits nothing exactly when no position from 1 on has the key; otherwise it emits a
   proper suffix that starts with the first such message, so the match itself is included and the
   oldest message is never part of it.
   */
  lemma FromMarkerSpec(s: seq<Message>, key: string)
    ensures FromMarker(s, key) == [] <==> forall q :: 1 <= q < |s| ==> s[q].key != key
    ensures FromMarker(s, key) != [] ==> |FromMarker(s, key)| < |s|
    ensures FromMarker(s, key) != [] ==> FromMarker(s, key)[0].key == key
    ensures forall q :: 1 <= q < |s| - |FromMarker(s, key)| ==> s[q].key != key
  {
    if s != [] {
      MarkerFromIsFirst(s, key, 1);
    }
  }

  /**
   Five messages with distinct keys pushed into a fresh capacity-5 queue: the scan from the third key
   gives the last three messages, the scan from the first key, now the oldest, gives nothing, and so
   does an unknown key.
   */
  lemma FromMarkerFiveMessages(m1: Message, m2: Message, m3: Message, m4: Message, m5: Message, other: string)
    requires m1.key != m2.key && m1.key != m3.key && m1.key != m4.key && m1.key != m5.key
    requires m2.key != m3.key && m2.key != m4.key && m2.key != m5.key
    requires m3.key != m4.key && m3.key != m5.key && m4.key != m5.key
    requires other !in {m1.key, m2.key, m3.key, m4.key, m5.key}
    ensures Window(5, [m1, m2, m3, m4, m5]) == [m1, m2, m3, m4, m5]
    ensures FromMarker([m1, m2, m3, m4, m5], m3.key) == [m3, m4, m5]
    ensures FromMarker([m1, m2, m3, m4, m5], m1.key) == []
    ensures FromMarker([m1, m2, m3, m4, m5], other) == []
  {
    var s := [m1, m2, m3, m4, m5];
    WindowShape(5, s);
    assert MarkerFrom(s, m3.key, 1) == 2;
    FromMarkerSpec(s, m1.key);
    FromMarkerSpec(s, other);
  }

  // ---------------------------------------------------------------------------------------------
  // The index walk of both scans and its break test

  /** The index after `k` executions of `index = (index + 1) % n`, starting from `i`. */
  function Advance(i: nat, n: nat, k: nat): (j: nat)
    requires i < n
    ensures j < n
  {
    if k == 0 then i else (Advance(i, n, k - 1) + 1) % n
  }

  /** Within two laps the walk is plain addition with one wrap. */
  lemma {:induction false} AdvanceValue(i: nat, n: nat, k: nat)
    requires i < n && i + k < 2 * n
    ensures Advance(i, n, k) == if i + k < n then i + k else i + k - n
  {
    if k > 0 {
      AdvanceValue(i, n, k - 1);
      ModBelowTwice(Advance(i, n, k - 1) + 1, n);
    }
  }

  /** Within one lap the walk comes back to its start exactly after `n` steps. */
  lemma AdvanceReturns(i: nat, n: nat, k: nat)
    requires i < n && 0 < k <= n
    ensures Advance(i, n, k) == i <==> k == n
  {
    AdvanceValue(i, n, k);
  }

  /**
   The break test `index == end_index + 1` of get_all and get_from, after `k` steps of the walk from
   `(end_index + 1) % len`: within the first lap it holds only at the end of the lap, and only when
   `end_index + 1 < len`.
   */
  lemma ScanBreakTest(n: nat, end: nat, k: nat)
    requires end < n && 0 < k <= n
    ensures Advance((end + 1) % n, n, k) == end + 1 <==> end + 1 < n && k == n
  {
    ModBelowTwice(end + 1, n);
    if end + 1 < n {
      AdvanceReturns(end + 1, n, k);
    }
  }

  /**
   When the cursor is on the last slot (always so for capacity 1) the break test never holds, however
   many steps are taken: get_all and get_from then loop forever.
   */
  lemma ScanNeverBreaks(n: nat, end: nat, k: nat)
    requires end < n && end + 1 == n
    ensures Advance((end + 1) % n, n, k) != end + 1
  {
  }

  /**
   Each accepted push moves the cursor one step of the walk, starting from slot 0, so a fresh queue
   has its cursor on the last slot after `len - 1` accepted pushes, the states in which the scans
   never stop.
   */
  lemma CursorReachesLastSlot(n: nat)
    requires 0 < n
    ensures Advance(0, n, n - 1) == n - 1
  {
    AdvanceValue(0, n, n - 1);
  }

  /**
   What a scan has written once the entries of `done` are out and another is to follow: the opening
   line, the entries, and the separator after the last of them.
   */
  function Partial(done: seq<Message>): string
  {
    if done == [] then "[\r\n" else "[\r\n" + Join(done) + Separator
  }

  /** Writing the pieces of one more entry after a partial output. */
  lemma EmitEntry(done: seq<Message>, m: Message, prefix: string)
    requires prefix == Partial(done)
    ensures prefix + "\"" + m.key + "\":\"" + m.data + "\"" == "[\r\n" + Join(done + [m])
  {
    assert prefix + "\"" + m.key + "\":\"" + m.data + "\"" == prefix + Entry(m);
    if done != [] {
      assert (done + [m])[..|done|] == done;
    }
  }

  /** The scan step on the slice `s[lo..k]`: emitting `s[k]` extends the slice by one. */
  lemma EmitEntryAt(s: seq<Message>, lo: nat, k: nat, prefix: string)
    requires lo <= k < |s| && prefix == Partial(s[lo..k])
    ensures prefix + "\"" + s[k].key + "\":\"" + s[k].data + "\"" == "[\r\n" + Join(s[lo..k + 1])
  {
    EmitEntry(s[lo..k], s[k], prefix);
    assert s[lo..k] + [s[k]] == s[lo..k + 1];
  }

  /** Writing the separator after the entries written so far. */
  lemma EmitSeparator(done: seq<Message>)
    requires done != []
    ensures "[\r\n" + Join(done) + ",\r\n" == Partial(done)
  {
  }

  /** Writing the closing bracket after all entries. */
  lemma EmitClose(done: seq<Message>)
    ensures "[\r\n" + Join(done) + "]" == Render(done)
  {
  }

  /**
   The text a scan has written when it reaches position `c` of the oldest-first order `s`, emitting
   from position `p` on: the opening, then every entry from `p` up to `c`, each followed by a
   separator.
   */
  ghost function ScanText(s: seq<Message>, p: nat, c: nat): string
    requires c <= |s|
  {
    if c <= p then "[\r\n"
    else ScanText(s, p, c - 1) + "\"" + s[c - 1].key + "\":\"" + s[c - 1].data + "\"" + ",\r\n"
  }

  /** Once emitting has started, the written text is the opening and the entries with separators. */
  lemma {:induction false} ScanTextIsPartial(s: seq<Message>, p: nat, c: nat)
    requires p <= c <= |s|
    ensures ScanText(s, p, c) == Partial(s[p..c])
    decreases c
  {
    if c > p {
      ScanTextIsPartial(s, p, c - 1);
      EmitEntryAt(s, p, c - 1, ScanText(s, p, c - 1));
      EmitSeparator(s[p..c]);
    }
  }

  /**
   One step of a scan at position `c`: an emitted entry and a separator extend the text once
   emitting has started, the text stays the opening before that, and emitting has started at the
   next position exactly when it had already started or that position's key is the one sought.
   */
  lemma ScanStep(s: seq<Message>, key: string, p: nat, c: nat)
    requires c + 1 < |s| && p == MarkerPosition(s, key)
    ensures p <= c ==>
      ScanText(s, p, c) + "\"" + s[c].key + "\":\"" + s[c].data + "\"" + ",\r\n" == ScanText(s, p, c + 1)
    ensures c < p ==> ScanText(s, p, c + 1) == ScanText(s, p, c)
    ensures (p <= c || s[c + 1].key == key) <==> p <= c + 1
  {
    MarkerFromIsFirst(s, key, 1);
  }

  /**
   The last step of a scan: after the final position, with its entry written if emitting has
   started, the closing bracket completes the rendering of the suffix from `p`.
   */
  lemma ScanTextClose(s: seq<Message>, p: nat, k: nat)
    requires p <= |s| && k + 1 == |s|
    ensures p <= k ==>
      ScanText(s, p, k) + "\"" + s[k].key + "\":\"" + s[k].data + "\"" + "]" == Render(s[p..])
    ensures k < p ==> ScanText(s, p, k) + "]" == Render(s[p..])
  {
    if p <= k {
      ScanTextIsPartial(s, p, k);
      EmitEntryAt(s, p, k, ScanText(s, p, k));
      assert s[p..k + 1] == s[p..];
      EmitClose(s[p..]);
    }
  }

  // ---------------------------------------------------------------------------------------------
  // The queue

  /** The outcome of a push: stored, or refused as too long. */
  datatype PushResult = Ok | Err

  class Queue {
    /** The slots; the vector is created with its final length and never resized. */
    const messages: array<Message>
    /** Pre-allocation hint for the rendered output; it does not affect any result. */
    const outputCapacity: nat
    /** Pushes of messages of this many bytes or more are rejected. */
    const maxMessageLen: nat
    /** The most recently written slot. */
    var endIndex: nat
    /** Every message pushed successfully, oldest first. */
    ghost var history: seq<Message>

    /** The cursor is on a slot, or on 0 when there are no slots. */
    predicate WellFormed()
      reads this
    {
      if messages.Length == 0 then endIndex == 0 else endIndex < messages.Length
    }

    /** The slots read oldest first are what the pushes so far leave in the ring. */
    ghost predicate Valid()
      reads this, messages
    {
      && WellFormed()
      && (messages.Length > 0 ==> OldestFirst(messages[..], endIndex) == Window(messages.Length, history))
    }

    /** `len` placeholder slots with the cursor on slot 0, so the first push writes slot 1. */
    constructor (len: nat, maxMessageLen: nat)
      ensures Valid() && fresh(messages)
      ensures messages.Length == len && messages[..] == Placeholders(len)
      ensures endIndex == 0 && history == []
      ensures this.maxMessageLen == maxMessageLen && outputCapacity == len * maxMessageLen
    {
      messages := new Message[len](_ => Placeholder);
      outputCapacity := len * maxMessageLen;
      this.maxMessageLen := maxMessageLen;
      endIndex := 0;
      history := [];
      new;
      assert messages[..] == Placeholders(len);
      if len > 0 {
        assert OldestFirst(messages[..], 0) == Placeholders(len);
      }
    }

    /**
     Stores `message` under `key` in the slot after the cursor, unless it is `maxMessageLen` bytes or
     longer. With no slots at all, a message short enough would be written out of range.
     */
    method Push(key: string, message: string) returns (r: PushResult)
      requires Valid()
      requires messages.Length > 0 || Utf8Len(message) >= maxMessageLen
      modifies this, messages
      ensures Valid()
      ensures r == Err <==> Utf8Len(message) >= maxMessageLen
      ensures r == Err ==> endIndex == old(endIndex) && messages[..] == old(messages[..])
      ensures r == Err ==> history == old(history)
      ensures r == Ok ==> endIndex == (old(endIndex) + 1) % messages.Length
      ensures r == Ok ==> messages[..] == old(messages[..])[endIndex := Message(key, message)]
      ensures r == Ok ==> history == old(history) + [Message(key, message)]
    {
      if Utf8Len(message) >= maxMessageLen {
        return Err;
      }
      var n := messages.Length;
      ghost var slots := messages[..];
      ghost var m := Message(key, message);
      ModBelowTwice(endIndex + 1, n);
      OldestFirstAfterOverwrite(slots, endIndex, m);
      WindowAfterPush(n, history, m);
      endIndex := endIndex + 1;
      if endIndex >= n {
        endIndex := 0;
      }
      assert endIndex == (old(endIndex) + 1) % n;
      messages[endIndex] := Message(key, message);
      assert messages[..] == slots[endIndex := m];
      history := history + [m];
      return Ok;
    }

    /**
     get_all: renders every slot, oldest first. The loop only ends when the cursor is not on the last
     slot (see ScanBreakTest and ScanNeverBreaks).
     */
    method GetAll() returns (out: string)
      requires WellFormed() && endIndex + 1 < messages.Length
      ensures out == Render(OldestFirst(messages[..], endIndex))
    {
      var n := messages.Length;
      ghost var slots := messages[..];
      var result := "[\r\n";
      ghost var first := Wrap(endIndex + 1, n);
      var index := (endIndex + 1) % n;
      assert index == first by { ModBelowTwice(endIndex + 1, n); }
      ghost var s := ScanOrder(slots, endIndex, n, first);
      ghost var count := 0;
      while true
        invariant 0 <= count < n
        invariant index == Wrap(first + count, n)
        invariant result == ScanText(s, 0, count)
        decreases n - count
      {
        assert messages[index] == s[count];
        result := result + "\"" + messages[index].key + "\":\"" + messages[index].data + "\"";
        assert (index + 1) % n == Wrap(first + count + 1, n) by { ModBelowTwice(index + 1, n); }
        index := (index + 1) % n;
        count := count + 1;
        assert index == first <==> count == n;
        if index == endIndex + 1 {
          assert result + "]" == Render(s[0..]) by { ScanTextClose(s, 0, count - 1); }
          break;
        }
        result := result + ",\r\n";
      }
      assert s == OldestFirst(slots, endIndex) by { OldestFirstByIndex(slots, endIndex, n, first, s); }
      assert s[0..] == s;
      result := result + "]";
      out := result;
    }

    /**
     get_from: renders, oldest first, the slots from the first one after the oldest whose key is
     `key`. The loop only ends when the cursor is not on the last slot (see ScanBreakTest and
     ScanNeverBreaks).
     */
    method GetFrom(key: string) returns (out: string)
      requires WellFormed() && endIndex + 1 < messages.Length
      ensures out == Render(FromMarker(OldestFirst(messages[..], endIndex), key))
    {
      var n := messages.Length;
      ghost var slots := messages[..];
      var result := "[\r\n";
      ghost var first := Wrap(endIndex + 1, n);
      var index := (endIndex + 1) % n;
      assert index == first by { ModBelowTwice(endIndex + 1, n); }
      ghost var s := ScanOrder(slots, endIndex, n, first);
      ghost var p := MarkerPosition(s, key);
      var startWrite := false;
      ghost var count := 0;
      while true
        invariant 0 <= count < n
        invariant index == Wrap(first + count, n)
        invariant startWrite <==> p <= count
        invariant result == ScanText(s, p, count)
        decreases n - count
      {
        assert messages[index] == s[count];
        if count + 1 < n { ScanStep(s, key, p, count); }
        if startWrite {
          result := result + "\"" + messages[index].key + "\":\"" + messages[index].data + "\"";
        }
        assert (index + 1) % n == Wrap(first + count + 1, n) by { ModBelowTwice(index + 1, n); }
        index := (index + 1) % n;
        count := count + 1;
        assert index == first <==> count == n;
        if index == endIndex + 1 {
          assert result + "]" == Render(s[p..]) by { ScanTextClose(s, p, count - 1); }
          break;
        } else if startWrite {
          result := result + ",\r\n";
        }
        assert messages[index] == s[count];
        if key == messages[index].key {
          startWrite := true;
        }
      }
      assert s == OldestFirst(slots, endIndex) by { OldestFirstByIndex(slots, endIndex, n, first, s); }
      result := result + "]";
      out := result;
    }

    /**
     get_all with the break test reduced modulo the capacity, `index == (end_index + 1) % len`:
     renders every slot, oldest first, in every state of a queue with at least one slot.
     */
    method GetAllWrapped() returns (out: string)
      requires WellFormed() && messages.Length > 0
      ensures out == Render(OldestFirst(messages[..], endIndex))
    {
      var n := messages.Length;
      ghost var slots := messages[..];
      var result := "[\r\n";
      var first := (endIndex + 1) % n;
      assert first == Wrap(endIndex + 1, n) by { ModBelowTwice(endIndex + 1, n); }
      var index := first;
      ghost var s := ScanOrder(slots, endIndex, n, first);
      ghost var count := 0;
      while true
        invariant 0 <= count < n
        invariant index == Wrap(first + count, n)
        invariant result == ScanText(s, 0, count)
        decreases n - count
      {
        assert messages[index] == s[count];
        result := result + "\"" + messages[index].key + "\":\"" + messages[index].data + "\"";
        assert (index + 1) % n == Wrap(first + count + 1, n) by { ModBelowTwice(index + 1, n); }
        index := (index + 1) % n;
        count := count + 1;
        assert index == first <==> count == n;
        if index == first {
          assert result + "]" == Render(s[0..]) by { ScanTextClose(s, 0, count - 1); }
          break;
        }
        result := result + ",\r\n";
      }
      assert s == OldestFirst(slots, endIndex) by { OldestFirstByIndex(slots, endIndex, n, first, s); }
      assert s[0..] == s;
      result := result + "]";
      out := result;
    }

    /**
     get_from with the break test reduced modulo the capacity: renders the suffix from the marker in
     every state of a queue with at least one slot.
     */
    method GetFromWrapped(key: string) returns (out: string)
      requires WellFormed() && messages.Length > 0
      ensures out == Render(FromMarker(OldestFirst(messages[..], endIndex), key))
    {
      var n := messages.Length;
      ghost var slots := messages[..];
      var result := "[\r\n";
      var first := (endIndex + 1) % n;
      assert first == Wrap(endIndex + 1, n) by { ModBelowTwice(endIndex + 1, n); }
      var index := first;
      ghost var s := ScanOrder(slots, endIndex, n, first);
      ghost var p := MarkerPosition(s, key);
      var startWrite := false;
      ghost var count := 0;
      while true
        invariant 0 <= count < n
        invariant index == Wrap(first + count, n)
        invariant startWrite <==> p <= count
        invariant result == ScanText(s, p, count)
        decreases n - count
      {
        assert messages[index] == s[count];
        if count + 1 < n { ScanStep(s, key, p, count); }
        if startWrite {
          result := result + "\"" + messages[index].key + "\":\"" + messages[index].data + "\"";
        }
        assert (index + 1) % n == Wrap(first + count + 1, n) by { ModBelowTwice(index + 1, n); }
        index := (index + 1) % n;
        count := count + 1;
        assert index == first <==> count == n;
        if index == first {
          assert result + "]" == Render(s[p..]) by { ScanTextClose(s, p, count - 1); }
          break;
        } else if startWrite {
          result := result + ",\r\n";
        }
        assert messages[index] == s[count];
        if key == messages[index].key {
          startWrite := true;
        }
      }
      assert s == OldestFirst(slots, endIndex) by { OldestFirstByIndex(slots, endIndex, n, first, s); }
      result := result + "]";
      out := result;
    }
  }
}
