# Ring-buffer chat queue and role gate, in Dafny

This project models the message store of a small authenticated chat service (`src/main.rs`), together
with the checks every handler makes before it touches the store.

**The queue.**
- It is a vector of `len` slots, created once with placeholder messages (empty key, empty data).
- A cursor `end_index` points at the most recently written slot.
- `push` refuses a message of `max_message_len` bytes or more. Otherwise it moves the cursor one slot
  forward, wrapping to slot 0 at the end, and overwrites that slot.
- `get_all` walks the slots from the one after the cursor, oldest to newest. It renders them as
  `"key":"data"` entries: an opening `[` and a line break, the entries separated by `,` and a line
  break, and a closing `]`.
- `get_from` makes the same walk. It starts writing at the first slot, after the oldest one, whose key
  equals the given key.

**The handlers.**
- Three handlers share the queue: `set_message`, `get_messages` and `get_messages_from`.
- Each one parses its JSON query and validates the caller's access token.
- Each one then refuses the caller when the service's role mask and the user's role mask have no bit
  in common. Only after that does it use the queue.

Files:
- `wrappers.dfy` (`Wrappers`): the `Option` type.
- `messages.dfy` (`Messages`) covers the message type and the rendered text:
  - `Utf8Len`, the byte length that `String::len` measures;
  - `Entry`, `Join` and `Render`, with lemmas on the layout of the text.
- `queue.dfy` (`RingQueue`) has two parts.
  - The specification functions:
    - `OldestFirst`, the slots read from the one after the cursor;
    - `Window`, what a sequence of pushes leaves in the ring;
    - `MarkerPosition` and `FromMarker`, the `get_from` start;
    - `Advance`, the scan's index walk.
  - The class `Queue`. Its `get_all` and `get_from` are loops proved to produce the rendering of the
    specified sequence; its `push` is proved to overwrite exactly the slot after the cursor.
- `service.dfy` (`Service`) covers the handlers:
  - the role gate `Permits`, on `bv8` as in the source's `u8`;
  - the shared checks `Authorize`;
  - the class `Chat`, with the three handlers as methods.

Modelling choices:
- Strings are sequences of Unicode scalar values. `message.len()` counts UTF-8 bytes, so the length
  check uses `Utf8Len`, the exact UTF-8 encoded length.
- The `ras_service` crate's `check_and_get_access_token` becomes a function parameter
  `verify: string -> Option<Token>`.
- The current time becomes `stamp`, the decimal text of the milliseconds that the key is built from.
- The parsed query is an `Option<map<string, Option<string>>>`. `None` stands for a missing or
  unparsable query.
- Three source behaviours become `requires` clauses, because the source offers no error path for them:
  - Indexing the parsed map by a field name panics when the field is absent. The handlers' `requires`
    demand those fields.
  - A scan whose break test can never hold loops forever. The scans' `requires` demand the states in
    which it ends.
  - A queue without slots panics: a short push writes out of range, and a scan takes a remainder by
    zero. `push`, the scans and `set_message` require a slot wherever the source would
    reach that point.
- The queue keeps a ghost `history` of accepted messages. `Queue.Valid` states that the slots, read
  oldest first, are `Window(len, history)`.

## Model

| member | source | states |
|---|---|---|
| Messages.Utf8Len | src/main.rs:91 | the byte length of a message lies between its character count and four times that; it equals the character count exactly when every character is ASCII |
| Messages.EntryLayout | src/main.rs:110-112 | an entry is the key between an opening quote and `":"`, then the data and a closing quote: five characters more than key and data together |
| Messages.JoinEnds | src/main.rs:107-121 | the entries joined are empty exactly when there are no messages; otherwise they start with the first message's entry and end with the last one's |
| Messages.RenderLayout | src/main.rs:107-121 | the body opens with `[` and a line break and closes with `]`; it is only the brackets exactly when nothing is emitted; otherwise the first entry follows the opening and the last entry precedes the closing bracket |
| Messages.JoinCons | src/main.rs:110-119 | the entries joined from the back, the way the loop appends them, equal the entries joined from the front: first entry, separator, rest |
| Messages.RenderSmall | src/main.rs:107-121 | the rendering of no entries is `[`, line break, `]`; that of one entry is the entry between the same brackets |
| Messages.RenderIsAmbiguous | src/main.rs:110-112 | keys and data are written without escaping, so two different messages can render to the same text |
| RingQueue.OldestFirstIsPermutation | src/main.rs:108-116 | the oldest-first order holds every slot exactly once (same multiset of messages as the slots) |
| RingQueue.OldestFirstAt | src/main.rs:108-114 | position `k` of the oldest-first order is slot `(end_index + 1 + k) % len`, the slot the scan's index walk reaches after `k` steps |
| RingQueue.OldestFirstAfterOverwrite | src/main.rs:94-101 | writing the slot after the cursor and moving the cursor there drops the oldest message of the oldest-first order and appends the new one |
| RingQueue.WindowAfterPush | src/main.rs:94-101 | one accepted push shifts the window left by one and appends the pushed message |
| RingQueue.WindowShape | src/main.rs:72-101 | after `h` accepted pushes into `len` slots, the slots read oldest first are the last `len` pushed messages, preceded by placeholders while fewer than `len` have been pushed |
| RingQueue.WindowDropsFirst | src/main.rs:94-101 | once more than `len` messages have been pushed, the first of them (if it occurs only once) is no longer stored |
| RingQueue.MarkerFromIsFirst | src/main.rs:138-146 | the marker search returns the first matching position from its start: the message there has the key, and no earlier position from the start has it |
| RingQueue.FromMarkerSpec | src/main.rs:129-146 | get_from emits nothing exactly when no position from 1 on holds the key; otherwise it emits a proper suffix starting with the first match, so the match is included and the oldest message never is; every position before the suffix, from 1 on, lacks the key |
| RingQueue.FromMarkerFiveMessages | src/main.rs:90-150 | five messages with distinct keys pushed into a fresh queue of five slots: all five are stored oldest first; get_from on the third key gives the last three; get_from on the first key, the oldest, gives nothing; so does an unknown key |
| RingQueue.AdvanceValue | src/main.rs:108-114 | within two laps, `k` steps of the index walk `(index + 1) % len` from `i` are `i + k`, less `len` once it passes the end |
| RingQueue.AdvanceReturns | src/main.rs:114 | within one lap, the walk comes back to its starting slot only after exactly `len` steps |
| RingQueue.ScanBreakTest | src/main.rs:108-116 | within the first lap, the unreduced break test `index == end_index + 1` of get_all (and the same test of get_from at lines 138-140) holds after `k` steps if and only if `end_index + 1 < len` and `k == len` |
| RingQueue.ScanNeverBreaks | src/main.rs:114-116 | with the cursor on the last slot, the break test does not hold after any number of steps |
| RingQueue.CursorReachesLastSlot | src/main.rs:81-97 | starting from cursor 0, `len - 1` cursor steps put the cursor on the last slot |
| RingQueue.Queue.constructor | src/main.rs:72-88 | `len` slots, all with empty key and data, cursor 0, no history, the given maximum, output capacity `len * max_message_len`; the queue is valid |
| RingQueue.Queue.Push | src/main.rs:90-103 | a message of `max_message_len` bytes or more is refused and nothing changes. Otherwise the cursor becomes `(old + 1) % len`, exactly that slot now holds the new message, every other slot is unchanged, the message is appended to the history, and validity is kept |
| RingQueue.Queue.GetAll | src/main.rs:105-123 | when the cursor is not on the last slot, the result is the rendering of every slot, oldest first |
| RingQueue.Queue.GetFrom | src/main.rs:125-150 | when the cursor is not on the last slot, the result is the rendering of the suffix of the oldest-first order that starts at the marker position |
| RingQueue.Queue.GetAllWrapped | src/main.rs:105-123 | get_all with the break test reduced modulo `len`: in every state of a queue with at least one slot, the result is the rendering of every slot, oldest first |
| RingQueue.Queue.GetFromWrapped | src/main.rs:125-150 | get_from with the break test reduced modulo `len`: in every state of a queue with at least one slot, the result is the rendering of the suffix from the marker position |
| Service.Permits | src/main.rs:188-189 | the gate `right_role & user_role != 0` holds if and only if the two masks share a role bit (set intersection of their bit positions is non-empty); the same gate guards get_messages (line 243) and get_messages_from (line 284) |
| Service.PermitsMonotone | src/main.rs:188-189 | a user without roles never passes, no user passes a zero service mask, and adding roles never loses access |
| Service.Authorize | src/main.rs:169-190 | the shared checks (repeated in each handler), each case stated both ways: bad request exactly when the query is missing or unparsable or the token is null; authentication timeout exactly when the token check fails; forbidden exactly when the validated token's role fails the gate; admitted exactly when it passes, with the validated token |
| Service.Chat.constructor | src/main.rs:27-31 | a service holding the given role mask and a fresh valid queue with the configured length and maximum |
| Service.Chat.SetMessage | src/main.rs:164-217 | forbidden exactly when the gate refuses the validated token; every rejection before the queue, and a null message, leave cursor, slots and history unchanged; otherwise the reply is OK exactly when the message is shorter than the maximum (bad request otherwise); on OK the cursor moves one slot forward (wrapping), exactly that slot now holds the message under the user's name followed by the time stamp, and the history gains it; on bad request nothing changes |
| Service.Chat.GetMessages | src/main.rs:219-258 | every rejection answers the status of the shared checks (bad request for a missing or unparsable query or a null token, authentication timeout for a refused token, forbidden exactly when the gate refuses the validated token); OK exactly when the checks pass, with the rendering of all slots oldest first as body; no body otherwise; once admitted, the cursor must not be on the last slot |
| Service.Chat.GetMessagesFrom | src/main.rs:260-303 | every rejection answers the status of the shared checks (bad request, authentication timeout, or forbidden exactly when the gate refuses the validated token); a null start key after the checks is a bad request; OK exactly when the checks pass and the start key is not null, with the rendering of the suffix from the start key as body; no body otherwise; with a start key, the cursor must not be on the last slot |

## Left out

- Configuration loading, route registration and the server runtime (`main`, src/main.rs:305-324): file and network I/O.
- The public-key fetch and signature verification (src/main.rs:22-33, 36-43): a network client and foreign cryptography. The token check itself is the `verify` parameter.
- JSON parsing of the query: a library call. Its outcome is the `Query` value, with `None` for a missing or malformed query.
- The `Mutex` around the queue and its poisoned-lock branch, which answers internal server error (src/main.rs:204-209, 248-253, 293-298): concurrency. The model is single-threaded, so `Status` has no internal-error value.
- Reading the system clock (src/main.rs:191-198): the clock reading's decimal text is the `stamp` parameter.
- `ping`: it returns a constant.
- RingQueue.Queue.constructor: `len * max_message_len` is exact. The source's `usize` multiplication can overflow for huge configurations. The value is only a pre-allocation hint that no result depends on.
- Machine-width integers in general: `len`, `end_index` and byte counts are unbounded naturals. `end_index + 1` cannot overflow in the source, because `end_index < len`.
- Service.Chat.SetMessage: a `message` field missing from the query panics in the source. The method requires the field; it does not return an error for it. It also requires a slot when an admitted message is short enough to be pushed, since the source's push then writes out of range.
- Service.Chat.GetMessagesFrom: a `start_key` field missing from the query panics in the source. The method requires the field.
- Service.Authorize: a `token` field missing from the query panics in the source. The function requires the field.
- Service.Chat.GetMessages: once the checks pass, the source's scan never returns when the cursor is on the last slot, and the handler then holds the queue's lock forever. The method requires the other states (which also rules out a queue without slots, where the source divides by zero).
- Service.Chat.GetMessagesFrom: with a start key, the source's scan never returns when the cursor is on the last slot, holding the lock. The method requires the other states, which also rules out a queue without slots.
- RingQueue.Queue.GetAll: it does not model divergence. It requires the states in which the loop ends (cursor not on the last slot); ScanNeverBreaks states that the other states never end.
- RingQueue.Queue.GetFrom: like GetAll, it requires the states in which the loop ends.
- RingQueue.Queue.Push: with zero slots, a short message is written out of range (a panic in the source). The method requires at least one slot unless the message is refused first.

## Findings

| source | as written | input that shows it | evidently intended | confidence | as-written member | corrected member |
|---|---|---|---|---|---|---|
| src/main.rs:115 | `get_all` breaks on `index == self.end_index + 1`, but `index` is always reduced modulo `len` | any queue with one slot; any queue after `len - 1` accepted pushes (cursor on slot `len - 1`): the loop never ends | break on `index == (self.end_index + 1) % len`, ending after one lap in every state | not executed | RingQueue.ScanBreakTest | RingQueue.Queue.GetAllWrapped |
| src/main.rs:139 | `get_from` has the same unreduced break test | the same states as for get_all: the loop never ends | break on `index == (self.end_index + 1) % len` | not executed | RingQueue.ScanBreakTest | RingQueue.Queue.GetFromWrapped |
