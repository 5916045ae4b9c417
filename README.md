# FROSTore key-generation and signing coordinators in Dafny

This project models the peer-coordination core of FROSTore, a peer-to-peer threshold
signing system: the `generate` coordinator that runs the opening of a distributed key
generation, and the `sign` coordinator that opens a signing session (`src/input.rs`).

A generation run, as modelled in `Generation.Generate`:

1. draws a 32-character alphanumeric generation id;
2. waits for the peer-lookup result whose query id matches its own, discarding others, unless
   the 30-second timer fires first ("Timed out");
3. draws `MAX_SIGNERS` participants without replacement by removing a random index from the
   lookup result and appending the removed peer to the participant list; a lookup result with
   too few peers makes the random draw over an empty range panic;
4. asks to subscribe to the topic named by the generation id, then sends one `JOIN_GEN`
   direct message per participant, carrying the generation id, the local peer id, the
   participant's 1-based position (cast to `u16`) and the local listen addresses;
5. waits for the first subscription event on the generation-id topic, unless the 120-second
   timer fires first ("Timed out");
6. rejects the run if any peer in that event is not a participant ("Invalid peer
   responded"), and otherwise publishes `GEN_R1` on the generation-id topic.

`Signing.Sign` takes the onion (group) id and the message from the command words, draws a
32-character signing id and publishes one `SIGN_R1` message on the onion topic.

How the environment is represented:

- Randomness is an input. Each id character is drawn as `draw % 62` over the alphabet
  `A-Z a-z 0-9`; the participant draw `gen_range(0 .. n)` is `draw % n`, and `n == 0` is the
  panic.
- Each timed wait is a finite sequence of `Event`s. `Timeout` marks the timer firing, and the
  end of the sequence also means the timer fired.
- The three outgoing channels (subscription requests, direct messages, topic publishes) are one
  `Channels.Outbox` whose `log` records every send in the order it is made.
- A payload is its tag and field tuple. `Types.Header` gives the literal text at its head
  (`"JOIN_GEN "`, `"GEN_R1"`, `"SIGN_R1 "`). The encoding of the field tuple that follows is not modelled.
- `MAX_SIGNERS` is a positive parameter, `maxSigners`.
- A run ends in `Done` (`Ok(())`), `Failed(message)` (an `Err`) or `Panicked`.

Where the design description and the code differ, the model follows the code:

- The join wait ends at the first subscription event on the session topic, whatever peers it
  lists. An empty or partial responder list passes validation and leads to `GEN_R1`. The
  design instead describes waiting for full participation.
- The lookup timeout fails with the same "Timed out" message as the join timeout.
- The query id is issued by the caller and passed in; `generate` does not issue the lookup.
- `sign` publishes on the topic named by its `onion` argument.
- Participants are distinct only when the lookup result is (`Selection.DrawnDistinct`). The
  code removes each picked entry, so no entry of the result is picked twice.

## Model

| member | source | states |
|---|---|---|
| `Types.AsUint16` | src/input.rs:84 | the `count as u16` cast keeps the count modulo 65536, and so keeps it unchanged below 65536 |
| `Ids.RandomId` | src/input.rs:50 | a generation or signing id has exactly 32 characters, each an ASCII letter or digit |
| `Ids.RandomIdCoversAll` | src/input.rs:50 | every 32-character alphanumeric string is the id of some random draw |
| `Waits.FirstArrivalIsFirstMatch` | src/input.rs:56-69 | the wait yields a peer list exactly when some event carries the awaited key with only other-key events before it, and then yields that event's peers |
| `Waits.TimeoutBeforeMatch` | src/input.rs:57-60 | a timer firing after only other-key events ends the wait with no result, whatever arrives later |
| `Waits.AwaitFirst` | src/input.rs:56-69 | the receive loop returns the first matching event's peers, or nothing when the timer fires first; the join wait at lines 95-108 is the same loop keyed by the generation-id topic |
| `Selection.RemoveAt` | src/input.rs:74 | `Vec::remove` shortens the list by one, keeps the earlier elements, shifts the later ones down and removes exactly the element at the index |
| `Selection.DrawnSucceeds` | src/input.rs:72-74 | the selection completes exactly when the lookup returned at least `MAX_SIGNERS` peers; otherwise a draw over an empty range panics |
| `Selection.DrawnPartition` | src/input.rs:70-76 | a completed selection has exactly `MAX_SIGNERS` participants, and participants plus leftover candidates are, as a multiset, the lookup result |
| `Selection.DrawnDistinct` | src/input.rs:70-76 | if the lookup result has no duplicates, neither does the participant list |
| `Selection.SelectPeers` | src/input.rs:70-76 | the remove-and-push loop computes exactly the selection the random draws determine, or reports the empty-range panic |
| `Channels.Outbox.Subscribe` | src/input.rs:79 | a subscription request is appended to the send log |
| `Channels.Outbox.SendDirect` | src/input.rs:89 | a direct message is appended to the send log |
| `Channels.Outbox.Publish` | src/input.rs:119 | a topic publish is appended to the send log |
| `Generation.Invitations` | src/input.rs:82-90 | one invitation per participant, in order: invitation k goes to participant k, is a `JOIN_GEN` payload with the same generation id, inviter and listen addresses, and carries index k+1 whenever there are fewer than 65536 participants |
| `Generation.SendInvitations` | src/input.rs:82-90 | the loop appends exactly those invitations to the send log and nothing else |
| `Generation.Validate` | src/input.rs:111-115 | validation passes exactly when every responder is one of the selected participants |
| `Generation.Generate` | src/input.rs:37-121 | a lookup timeout fails with nothing sent; too few peers panics with nothing sent; otherwise the log gains the subscription, then the invitations, then `GEN_R1` only when the join event arrives in time and names no foreign peer; a join timeout or a foreign responder fails with no `GEN_R1` |
| `Signing.Sign` | src/input.rs:123-142 | a missing command word panics with nothing sent; otherwise exactly one `SIGN_R1` publish on the onion topic, carrying a fresh signing id, the onion id and the message |

## Left out

- `add_peer` (src/input.rs:27-34): it only parses two words and calls the Kademlia routing table's `add_address` and `bootstrap`, which are not part of this model.
- src/swarm.rs: transport, behaviour composition, executor and command/result channels are library wiring that is not part of this model.
- Real time and concurrency: the `select!` race between a receiver and a timer is replaced by an event sequence with a `Timeout` marker. The 30- and 120-second durations therefore do not appear.
- Receiver errors: `recv().unwrap()` panics when a broadcast receiver lags or closes. The model only delivers events.
- The bincode and base64 encoding of the field tuples: the log keeps the tag and the fields, not the bytes.
- Logging through `eprintln!`.
- The listen-address list is read under a lock on every invitation. The model takes one snapshot, so an address change between two invitations is not represented.
- `Ids.RandomId`: the sampler's rejection step and the exact distribution of `gen_range` are not modelled. Only which values each draw can produce is kept.
- Conversions between `PeerId` and its text (`to_string`, `parse().unwrap()`) are treated as exact inverses, so the parse never panics.
- Everything after `GEN_R1` and `SIGN_R1`: the threshold-cryptography rounds, share combination, signature verification and the session registry do not appear in the modelled code.
