# OpenHDO Tuya Linker: a verified model

The Linker connects one Tuya light on the local network to an OpenHDO server.
It speaks the Tuya LAN protocol to the device, keeps a cache of the device's
data points, executes the server's light commands at most once per idempotency
key, and pairs with new devices.  This project models that logic in Dafny and
proves what it keeps, over all inputs and over every interleaving of its tasks.
`dafny verify dfyconfig.toml` checks everything.

## How the model is laid out

* `Scaling`, `Hsv`, `Mapping`, `Dps`, `Commands`: values.  Channels 0..255
  against device ranges, colours as whole HSV steps, data points as JSON
  members, and light commands from request to read-back.
* `Text`, `Json`, `Crypto`, `Frames`, `Payloads`, `Session`: the wire.
  Hexadecimal and decimal text, padding, frames, streams, the payload layer of
  each protocol version, the 3.4 handshake.
* `Pending`, `Exchange`, `Asking`, `Cache`: the request/reply engine.  `Exchange`
  is a step machine; a step is what one task does between two awaits, and a run
  is any sequence of steps, so a lemma about runs covers every interleaving.
  `Asking` is the retry loop as the coroutine that runs it sees it, with whatever
  the reader and other tasks do at its awaits; every call of it is a run of the
  step machine.
* `Devices`, `PairingFile`, `Pairing`, `Subscriptions`, `Agreement`:
  configurations, the state file, pairing as a transaction, the callbacks over
  runs of subscriptions and pairings, and the agreement of boundary and driver
  over runs of the receive loop and the publisher.
* `Driver`: the class `TuyaLocalDriver` with the fields the tasks share.  Each
  method is one stretch between two awaits, and its contract ties the fields to
  the functions of `Pending`, `Asking`, `Cache`, `Pairing`, `Subscriptions` and
  `Commands`.
* `Boundary`: admission of commands, the journal and boundary classes, and the
  step machine of concurrent `handle` calls.
* `Redaction`: string replacement, redaction of nested values, and the
  inspection payload.

## What is assumed

* AES-ECB, HMAC-SHA256 and CRC-32 are function values; `Crypto.Lawful` states
  the length and inverse laws the proofs need, as an explicit hypothesis.
  Padding is concrete (section 6.3 of RFC 5652).  The HMAC of two different
  nonces is assumed to differ where the handshake lemmas say so.
* SHA-256 is a function from strings to 64 lower-case hexadecimal digits.  JSON
  text is a pair of functions that invert each other on what the driver writes.
* Floating-point quotients in brightness and colour conversion are exact reals;
  `round` is half-to-even.  Data points are integers or reals, hexadecimal
  fields are plain digits, decimal keys an optional sign and plain digits, and
  `lower` affects ASCII letters.
* `connect` is one step, and `disconnect` does not raise.  A future is a handle
  into a list of outcomes; a cancelled or failed future keeps its outcome.
* The network is unconstrained in `Exchange`: any frame may arrive at any time.

## Where the code falls short of its promise

Each of these is proved, together with the condition that separates it from the
cases in which the code keeps the promise.

* A pairing that succeeds with a device id that is no light id (a capital
  letter, or a first character that is no letter) commits and then reports
  failure, because the descriptor is first built from the raw id
  (`Pairing.PairReport`, `Pairing.CapitalIdStaysBound`).  Boundary and driver
  then disagree and the next command is refused (`Agreement.SpoilingIsExact`),
  and a restart fails (`Agreement.RestartAfterPairing`).
* When a pairing fails with the new connection still open - a reply that does
  not decode, a file that cannot be written, a poll that is cancelled while it
  waits - the error handler has to wait for its disconnect.  A cancellation there
  leaves the new device in place (`Pairing.InterruptedRollback`); this is the only
  way for a pairing that does not commit to change the binding
  (`Pairing.PairTransaction`).
* A reset keeps the data points.  Until the first reply after it a push can give
  a light state that mixes two devices (`Cache.PushAfterResetMixes`); when a
  light state is of its own device's data alone is stated exactly
  (`Cache.OwnDataExactly`).
* After an interrupted rollback a further callback can be subscribed on the
  device left in place, and a pairing back then overwrites the callbacks of the
  first device (`Subscriptions.InterruptedLoses`).  Without an interrupted
  rollback no subscription is ever lost (`Subscriptions.NothingLost`), nor with
  one subscriber at a time (`Subscriptions.OneSubscriberKeeps`), which is how the
  publisher subscribes.
* A cancelled exchange leaves its entry in the pending table exactly if its reply
  was still outstanding (`Exchange.CancelledEntryStays`), and after 2^32 further
  sequence numbers a late reply is taken for a new one
  (`Exchange.LateReplyAfterWrap`; up to that many, `Exchange.NoLateReply`).
* A query under protocols 3.2 and 3.3 carries no version header; it is read back
  if and only if its ciphertext does not begin with one (`Payloads.WithoutHeader`).
* An HSV colour is refused with a plain ValueError, which the callers do not
  treat as a protocol error, exactly when its value exceeds 1001 thousandths or
  its saturation exceeds 1000 by more than the value allows
  (`Mapping.HsvRefusal`, with refused colours in `Mapping.HsvRefused`).  A push of
  such a colour ends the reader, and nothing else in a push does
  (`Driver.TuyaLocalDriver.HandlePush`).
* An operation cancelled before its result is journaled may run again
  (`Boundary.CancelledMayRepeat`); one that is not never does
  (`Boundary.OncePerKey`).
* A secret that overlaps the word it is replaced with can survive its own
  replacement (`Redaction.RemovableExact`), and keys are never redacted: the
  output is free of secrets if and only if its keys were
  (`Redaction.FreeWithKeys`).

## Model

| member | source | states |
|---|---|---|
| Scaling.FromToExact | src/openhdo_linker/tuya.py:125-154 | every requested channel value is read back exactly if and only if the range has at least 255 steps |
| Scaling.ToFromExact | src/openhdo_linker/tuya.py:125-154 | every device value survives being read and written if and only if the range has at most 255 steps |
| Scaling.Settles | src/openhdo_linker/tuya.py:125-154 | for every span, one conversion there and back is a fixed point of the next, in both orders |
| Scaling.RoundTripError | src/openhdo_linker/tuya.py:125-137 | for every span, a level read back differs from the one written by at most half a channel step and half a device step |
| Scaling.ToDpMonotone | src/openhdo_linker/tuya.py:125-128 | a higher channel value never gives a lower device value |
| Scaling.FromDpMonotone | src/openhdo_linker/tuya.py:130-137 | a higher device value never gives a lower channel value |
| Scaling.Endpoints | src/openhdo_linker/tuya.py:125-154 | both ends of the channel correspond to both ends of the range, in both directions |
| Scaling.InRange | src/openhdo_linker/tuya.py:125-154 | neither conversion leaves its range |
| Scaling.ThresholdsAreTight | src/openhdo_linker/tuya.py:125-154 | span 254 loses channel value 127 and span 256 loses device value 128 |
| Hsv.HsvToRgbWeights | src/openhdo_linker/tuya.py:185-187 | the six branches of the colour conversion are one formula with a piecewise linear weight per channel |
| Hsv.HueWeights | src/openhdo_linker/tuya.py:163-164 | the weights of a colour's exact hue are the distances of its channels from the largest, as fractions of the spread |
| Hsv.ExactRoundTrip | src/openhdo_linker/tuya.py:163-187 | the exact conversion to HSV and back is the identity on every colour |
| Hsv.WeightRounding | src/openhdo_linker/tuya.py:163-164 | rounding the hue moves each weight by at most 1/120 and keeps weights at their ends, across sextant edges and the wrap from 360 to 0 |
| Hsv.RoundTrip | src/openhdo_linker/tuya.py:156-187 | a stored colour keeps its largest and smallest channel exactly, moves no channel by more than 2, and greys return exactly |
| Hsv.RoundTripBoundIsTight | src/openhdo_linker/tuya.py:156-187 | the bound of 2 is reached by the colour 255, 2, 0 |
| Hsv.PrimarySteps | src/openhdo_linker/tuya.py:163-164 | red, green and blue are stored at hue 0, 120 and 240, black and white without colour |
| Mapping.ColorRoundTrip | src/openhdo_linker/tuya.py:156-187 | decoding an encoded colour succeeds, is exact in rgb_hex, and is within 2 with exact extremes in hsv_hex |
| Hsv.DecodableExact | src/openhdo_linker/tuya.py:177-187 | steps decode to a colour, at every hue, exactly while value is at most 1001 and the saturation does not push a channel below zero |
| Mapping.HsvRefusal | src/openhdo_linker/tuya.py:166-187 | any value of an hsv_hex colour that is not twelve hexadecimal digits is a protocol error; of the others a plain ValueError refuses exactly those with value over 1001 or 255 * value * (saturation - 1000) over 500000 |
| Mapping.HsvRefused | src/openhdo_linker/tuya.py:176-187 | refused colours at every hue: value 1002, and saturation 1002 at full value; 1001 in both places decodes |
| Mapping.ColorRefusal | src/openhdo_linker/tuya.py:166-187 | in either format a plain ValueError refuses exactly the hsv_hex steps that no light state can hold; every other failure is a protocol error |
| Mapping.RgbExact | src/openhdo_linker/tuya.py:166-175 | an rgb_hex value is the colour whose six digits it begins with, in either case of letter, exactly if it is text of six or eight characters; anything else is a protocol error |
| Mapping.SpelledExact | src/openhdo_linker/tuya.py:176-182 | twelve characters spell exactly the hue, saturation and value whose digits they are, in either case of letter |
| Mapping.FromNumberExact | src/openhdo_linker/tuya.py:130-154 | exactly the integers in the range and the floats whose whole part is in it are read, to the nearest channel value; all else is a protocol error |
| Mapping.FromNumberRange | src/openhdo_linker/tuya.py:130-154 | a level that is read is a channel value |
| Text.ParseHexByte | src/openhdo_linker/tuya.py:156-173 | two printed hexadecimal digits read back as the number |
| Text.ParseHexWord | src/openhdo_linker/tuya.py:164-180 | four printed hexadecimal digits read back as the number |
| Text.DigitExact | src/openhdo_linker/tuya.py:173 | a character is the digit n exactly if it is what n is printed as, in either case of letter |
| Text.HexByteExact | src/openhdo_linker/tuya.py:173 | two characters read as n exactly if they are what n is printed as, in either case of letter |
| Text.HexWordExact | src/openhdo_linker/tuya.py:180 | four characters read as n exactly if they are what n is printed as, in either case of letter |
| Text.DecimalSigned | src/openhdo_linker/tuya.py:476 | a sign in front of a number, and zeros in front of its digits, mean what they should |
| Text.DecimalRoundTrip | src/openhdo_linker/tuya.py:476-481 | a printed data-point index reads back as itself |
| Text.DecimalInjective | src/openhdo_linker/tuya.py:849-855 | different indexes are printed as different keys |
| Dps.ParseDps | src/openhdo_linker/tuya.py:456-484 | the loop over the members computes the specified map, or the specified error |
| Dps.ParseDpsMeaning | src/openhdo_linker/tuya.py:456-484 | every accepted index lies in 1..255, the map has exactly the indexes that occur, and the last occurrence decides the value |
| Dps.BadIndexRefused | src/openhdo_linker/tuya.py:476-483 | one key that is no number or out of range makes the whole reply a protocol error |
| Dps.EntriesExact | src/openhdo_linker/tuya.py:474-484 | a reply is accepted exactly if all its keys are indexes |
| Dps.ParseDpsExact | src/openhdo_linker/tuya.py:466-472 | the data points are the object under dps, or under data.dps if there is none or it is null; any other shape is refused |
| Dps.DpsRoundTrip | src/openhdo_linker/tuya.py:849-857 | a map of data points printed into either command body, in any order, reads back as the same map |
| Dps.CommandBodyFields | src/openhdo_linker/tuya.py:850-856 | a command body carries the time and, by version, the protocol number or the device id under both its names |
| Dps.StateDependsOnMapped | src/openhdo_linker/tuya.py:487-500 | data points that are not mapped do not affect the light state |
| Dps.StateFromDpsExact | src/openhdo_linker/tuya.py:487-500 | when data points decode; a plain ValueError comes exactly of a boolean power, a brightness point and a refused colour, and every other failure is a protocol error |
| Dps.StateFromDpsParts | src/openhdo_linker/tuya.py:487-500 | each part of a light state is the decode of its own data point |
| Commands.CommandAdmitted | src/openhdo_linker/tuya.py:807-847 | a command is refused before sending exactly when a level is out of 0..255 or the white channel is missing |
| Commands.ValuesContent | src/openhdo_linker/tuya.py:807-847 | a command writes one data point per channel it sets, and no other, because the mapped indexes are distinct |
| Commands.DeliveredOnce | src/openhdo_linker/tuya.py:894-920 | a device that overwrites its data points ends the same after one delivery and after many |
| Commands.CommandTakesEffect | src/openhdo_linker/tuya.py:757-862 | delivered one or more times and polled, a command is confirmed exactly when the channels it does not set and the reply shows were readable, and changes exactly the channels it sets; a reply without white, which polls of 3.1 to 3.3 do not ask for, gives a state without white and all else the same |
| Commands.CommandReadBack | src/openhdo_linker/tuya.py:849-862 | the driver's state after the command's poll is the expected one, with white as far as the reply shows it, and the next revision |
| Commands.ExpectedIsRequested | src/openhdo_linker/tuya.py:807-862 | power is exact; brightness and white are exact from span 255 on and otherwise within the scaling error; colour is exact in rgb_hex and within 2 in hsv_hex |
| Crypto.UnpadPad | src/openhdo_linker/tuya.py:294-311 | removing padding undoes adding it, for every length |
| Crypto.PaddingExact | src/openhdo_linker/tuya.py:294-311 | padding is 1 to 16 bytes of their own number filling the last block, and exactly such padding is taken off |
| Crypto.DecryptExact | src/openhdo_linker/tuya.py:294-311 | what decrypts to which text; the plain ValueError is for data that is not whole blocks, all else is a protocol error |
| Crypto.AesRoundTrip | src/openhdo_linker/tuya.py:294-311 | decrypting with padding undoes encrypting with padding |
| Frames.ParseBuild | src/openhdo_linker/tuya.py:332-370 | parsing a built frame returns it if and only if its length field is within 1 MiB, with CRC and with HMAC |
| Frames.WireExact | src/openhdo_linker/tuya.py:332-370 | byte for byte: marks, big-endian sequence, command and length, payload, and an HMAC or CRC of all before it; exactly such bytes are built, and accepted up to 1 MiB |
| Frames.BuildParse | src/openhdo_linker/tuya.py:352-370 | every byte string the parser accepts is exactly what building its result gives |
| Frames.ParseInjective | src/openhdo_linker/tuya.py:352-370 | two accepted byte strings with the same result are equal |
| Frames.StreamReader.ReadExactly | src/openhdo_linker/tuya.py:986-993 | a read takes exactly the bytes asked for, or fails at the end of the stream |
| Frames.StreamReader.ReadFrame | src/openhdo_linker/tuya.py:986-994 | reading one frame returns and leaves what the stream function says |
| Frames.TakeBuilt | src/openhdo_linker/tuya.py:986-994 | a read takes one built frame and nothing of what follows |
| Frames.TakeOnlyBuilt | src/openhdo_linker/tuya.py:986-994 | a read that succeeds found a built frame at the head of the stream |
| Frames.StreamRoundTrip | src/openhdo_linker/tuya.py:986-994 | n reads over n built frames yield those frames and leave precisely the remaining bytes |
| Frames.StreamUnique | src/openhdo_linker/tuya.py:986-994 | a stream splits into frames in at most one way |
| Payloads.WithoutHeader | src/openhdo_linker/tuya.py:318-396 | a header-less query under 3.2 and 3.3 is recovered if and only if its ciphertext does not begin with the version header |
| Payloads.EncodeSends | src/openhdo_linker/tuya.py:318-330 | what is sent for each version and command, with the 3.1 digest and the headers spelled out |
| Payloads.DecodeExact | src/openhdo_linker/tuya.py:373-396 | what each received payload decodes to under each version, and exactly which fail with a plain ValueError |
| Payloads.RetcodeExact | src/openhdo_linker/tuya.py:452-453 | four zero bytes in front of a reply are removed, and nothing else |
| Payloads.PayloadRoundTrip | src/openhdo_linker/tuya.py:318-396 | for each version and command the driver sends, decoding an encoded payload returns the JSON text, in all cases but the header-less one |
| Payloads.WireRoundTrip | src/openhdo_linker/tuya.py:318-396 | payload, frame and stream layers composed return the JSON text and the bytes that follow, under device and session key |
| Session.HandshakeCompletes | src/openhdo_linker/tuya.py:877-892 | undisturbed, both sides complete and recover each other's nonce |
| Session.HandshakeAgrees | src/openhdo_linker/tuya.py:877-892 | when both sides complete, whatever happened to one of the messages, they recovered each other's nonce and hold one session key |
| Session.FinishAccepted | src/openhdo_linker/tuya.py:887-889 | the peer accepts the finish message exactly of a driver that recovered its nonce |
| Session.VerifyExact | src/openhdo_linker/tuya.py:883-887 | a response is accepted exactly if it decrypts to a nonce followed by the proof for the driver's own |
| Session.MixTwice | src/openhdo_linker/tuya.py:891 | mixing a nonce in twice returns the other, byte by byte |
| Session.SessionKeyMeaning | src/openhdo_linker/tuya.py:891-892 | the session key is one block that decrypts to the exclusive or of the nonces, bit by bit |
| Session.SessionKeySeparates | src/openhdo_linker/tuya.py:891-892 | each nonce of the peer gives a session key of its own |
| Session.BothDisturbed | src/openhdo_linker/tuya.py:877-892 | the hypothesis of HandshakeAgrees is needed: with both messages disturbed all checks can pass and the keys differ |
| Session.ReplayRefused | src/openhdo_linker/tuya.py:877-892 | a replayed response verifies because the driver's nonce is constant, but a peer that checks the finish message refuses it |
| Pending.WireNumberClash | src/openhdo_linker/tuya.py:981-983 | two allocations share a sequence number exactly when they are a multiple of 2^32 apart |
| Pending.FailAllSettles | src/openhdo_linker/tuya.py:741-755 | after a disconnect or reader failure the table is empty, its futures are done, and no done future changed |
| Exchange.ExchangeAnswersItself | src/openhdo_linker/tuya.py:894-945 | in every run, an exchange that returns does so with the decode of a frame carrying the number of its own latest attempt |
| Exchange.NoLateReply | src/openhdo_linker/tuya.py:894-945 | up to 2^32 allocations, a reply to an earlier attempt, another exchange or an earlier connection completes no exchange |
| Exchange.NoWaiterLost | src/openhdo_linker/tuya.py:894-945 | in every run, the future a task waits for is in the table under its own number if and only if it is not done |
| Exchange.AtMostOneEntry | src/openhdo_linker/tuya.py:894-917 | the table holds at most one entry more than exchanges were cancelled with their reply outstanding; without any, an entry means the lock holder waits for it |
| Exchange.ClosingWakesEveryone | src/openhdo_linker/tuya.py:741-755 | after a disconnect or reader failure at any point of any run the table is empty and every waiting exchange can resume |
| Exchange.WritesBounded | src/openhdo_linker/tuya.py:894-920 | one call writes at most retries + 1 requests |
| Exchange.CancelledEntryStays | src/openhdo_linker/tuya.py:895-917 | in every run, cancelling the exchange that holds the lock frees it and leaves the table as it is; its entry stays exactly if its reply was still outstanding |
| Exchange.LateReplyAfterWrap | src/openhdo_linker/tuya.py:894-983 | with one allocation more than 2^32 a late reply does complete a later attempt |
| Asking.AskedAnswers | src/openhdo_linker/tuya.py:894-920 | whatever the reader and other tasks do at the awaits of a call, if it returns it has the decode of a frame with the number its own last attempt was registered under |
| Asking.AskedQuietly | src/openhdo_linker/tuya.py:894-920 | a call that no other task disturbs returns over an open connection with nothing outstanding, or raises with the connection closed and nothing outstanding, or was stopped with it open |
| Asking.AskedExtends | src/openhdo_linker/tuya.py:894-920 | neither a call nor what others do during it touches a future that is done |
| Asking.AskedRetries | src/openhdo_linker/tuya.py:894-920 | when the attempts before some attempt time out, fail to write or fail to connect, and that one receives a decodable frame under the number it registered, the call returns exactly that decode |
| Asking.AskedStops | src/openhdo_linker/tuya.py:894-920 | a call whose attempt is cancelled, or answered with a plain ValueError, makes no further attempt and leaves the connection open |
| Asking.AskedExhausts | src/openhdo_linker/tuya.py:894-920 | a call that nothing cuts off returns nothing only after every attempt has registered its request |
| Asking.AskedIsRun | src/openhdo_linker/tuya.py:894-920 | after any history a call by the lock holder - connecting, all attempts, and what others do in between - is the rest of a run of the step machine with the same table and the same outcome |
| Asking.ConnectedOpens | src/openhdo_linker/tuya.py:724-739 | connecting succeeds exactly if a connection is open afterwards, and leaves nothing outstanding |
| Asking.ConnectedMeaning | src/openhdo_linker/tuya.py:724-739 | when connecting succeeds, the numbers it takes, the session key it leaves, and which failures are retried |
| Cache.RawTracksHistory | src/openhdo_linker/tuya.py:757-784 | after a reply and any pushes, each data point has the value of the latest event that supplied it, decodable or not |
| Cache.OriginSupplies | src/openhdo_linker/tuya.py:757-784 | in every history each data point has exactly the value that the event it comes from supplied |
| Cache.OwnDataExactly | src/openhdo_linker/tuya.py:947-964 | after a reset given data points are of the new device alone if and only if a reply has come since, or pushes have carried all of them that the old device had left |
| Cache.PushAfterResetMixes | src/openhdo_linker/tuya.py:957-964 | a first push with the power alone produces a state with the new device's id and the old device's colour and brightness |
| Cache.StateTracksHistory | src/openhdo_linker/tuya.py:947-964 | the light state is always the decode of the most recent merge that decoded since the last reset |
| Cache.RevisionCounts | src/openhdo_linker/tuya.py:792-794 | a revision is one less than the number of states produced since the last reset |
| Cache.RevisionCountsUp | src/openhdo_linker/tuya.py:765-794 | every event but a reset raises the revision by one if it produces a state and leaves it otherwise |
| Devices.CandidateIsLight | src/openhdo_linker/tuya.py:676-678 | every candidate id has the form of a light id |
| Devices.CandidateSeparates | src/openhdo_linker/tuya.py:676-678 | two devices share a candidate id exactly if the first halves of their digests agree |
| Devices.MakeDeviceExact | src/openhdo_linker/tuya.py:204-228 | a device is configured exactly at a private address under an id of 1 to 64 characters, with key, version, mapping, name and retries of the profile |
| Devices.DiscoveredLightId | src/openhdo_linker/models.py:40-42 | a discovered device id has the form of a light id exactly when it begins with a lower-case letter and has no capital |
| PairingFile.CrashAtomic | src/openhdo_linker/tuya.py:629-655 | a crash at any step leaves the state path with the whole old file, if that was synced, or its absence, or the whole new one; every other path keeps its file, whole if it was synced |
| PairingFile.SyncIsNeeded | src/openhdo_linker/tuya.py:644-648 | without the sync before the replacement a crash can leave an empty state file |
| PairingFile.Disk.Save | src/openhdo_linker/tuya.py:629-655 | saving replaces the file or, on an error at any step, changes no path and leaves no temporary file |
| PairingFile.SaveLoad | src/openhdo_linker/tuya.py:595-655 | loading what was saved under the same profile returns the same device and candidate id |
| PairingFile.LoadAccepts | src/openhdo_linker/tuya.py:595-627 | a file is accepted exactly if it holds an object of version 1 with a private address, an id of 1 to 64 characters and the candidate id derived from it; it yields that device, the rest from the profile; any other file is a configuration error |
| Pairing.TriedMeaning | src/openhdo_linker/tuya.py:572-581 | the guarded part of a pairing completes exactly if every stage does, and otherwise has changed the device and the cache only |
| Pairing.PairTransaction | src/openhdo_linker/tuya.py:551-589 | device, light id, saved binding and callbacks are entirely new if every stage completed; if one did not they are entirely old if and only if the device was never switched, or is the same, or the error handler's disconnect completes where it has to wait |
| Pairing.CommitsExact | src/openhdo_linker/tuya.py:572-582 | whether a pairing commits is decided by its awaits and by whether the reply reads as a light state, not by pushes or the old cache |
| Pairing.PairCompletes | src/openhdo_linker/tuya.py:551-589 | a pairing whose awaits complete and whose reply reads as a light state is reported as paired, if its raw id is a light id, and binds everything |
| Pairing.PairRevision | src/openhdo_linker/tuya.py:572-588 | a commit adopts the state the reply reads as, its revision the number of readable pushes before it; a rollback leaves no light state |
| Pairing.CallbacksFollow | src/openhdo_linker/tuya.py:578-580 | the callbacks of the previous device belong to the new one, none is left under the old id, and no other device is affected |
| Pairing.SubscriptionLost | src/openhdo_linker/tuya.py:578-580 | for any callback table, moving loses a subscription exactly if it was under the new id alone and the previous device's callbacks overwrite it |
| Subscriptions.CallbacksAreCurrent | src/openhdo_linker/tuya.py:796-805 | over every run of subscriptions and pairings without an interrupted rollback only the driver's current device has callbacks |
| Subscriptions.NothingLost | src/openhdo_linker/tuya.py:551-589 | in such a run whatever was subscribed stays subscribed, under the current device, until it is unsubscribed |
| Subscriptions.OneSubscriberKeeps | src/openhdo_linker/server_client.py:122-155 | a single subscriber loses nothing even to interrupted rollbacks |
| Subscriptions.SubscribeMeaning | src/openhdo_linker/tuya.py:796-799 | in every run a subscription adds the callback behind those of the current device, or does nothing for another one |
| Subscriptions.UnsubscribeMeaning | src/openhdo_linker/tuya.py:801-805 | in every run an unsubscription takes the first registration of the callback out and keeps the others in order |
| Subscriptions.InterruptedLoses | src/openhdo_linker/tuya.py:572-588 | a callback on one device, an interrupted pairing to another, a callback on that one and a pairing back: the first callback is gone |
| Pairing.PairReport | src/openhdo_linker/tuya.py:551-589 | success means that everything belongs to the new candidate; failure to bind another device means that nothing changed if and only if a commit has a light id for its raw device id and an uncommitted pairing gets to roll back |
| Pairing.CapitalIdStaysBound | src/openhdo_linker/tuya.py:786-790 | a committed device with a capital letter in its id stays bound while failure is reported |
| Pairing.InterruptedRollback | src/openhdo_linker/tuya.py:583-588 | with the new connection open, a cancelled disconnect in the error handler leaves the new device without a commit |
| Agreement.AlwaysAgreed | src/openhdo_linker/server_client.py:78-157 | over every run of commands, scans, pairings and publisher cycles that no pairing spoils, boundary and driver name one device whenever the receiver does not hold the driver lock, and the device check never fails |
| Agreement.SpoilingIsExact | src/openhdo_linker/boundary.py:120-153 | the end of a pairing breaks agreement if and only if it committed an id that is no light id or its rollback was cancelled, and then the next command is refused |
| Agreement.PairingTakesControl | src/openhdo_linker/boundary.py:120-153 | in every run a pairing that goes well gives control of the new light, with boundary and driver naming the same device and the lock free |
| Agreement.FoundExact | src/openhdo_linker/tuya.py:539-549 | a scan leaves one candidate for each id found, and no others |
| Agreement.StepKeeps | src/openhdo_linker/server_client.py:82-157 | every step of receiver or publisher keeps the lock discipline, and agreement unless it spoils it |
| Agreement.RestartAfterPairing | src/openhdo_linker/cli.py:139-160 | the saved binding of a pairing is restored by the next start, with the same device and light, if and only if the raw device id is a light id |
| Driver.TuyaLocalDriver.constructor | src/openhdo_linker/tuya.py:511-535 | a new driver has no requests, no data points and the given device |
| Driver.TuyaLocalDriver.LoadPairingState | src/openhdo_linker/tuya.py:536-537 | a driver without a device takes over the binding its state file states, with everything else from the profile, and nothing if there is none or it is refused |
| Driver.TuyaLocalDriver.NextSequence | src/openhdo_linker/tuya.py:981-983 | the counter is the number of allocations modulo 2^32 |
| Driver.TuyaLocalDriver.RegisterNext | src/openhdo_linker/tuya.py:902-905 | an attempt takes the next number and enters a new future under it |
| Driver.TuyaLocalDriver.Forget | src/openhdo_linker/tuya.py:915-916 | the error path drops exactly the entry of its number |
| Driver.TuyaLocalDriver.GiveUp | src/openhdo_linker/tuya.py:909 | a timeout or cancellation settles the future only if it is not done |
| Driver.TuyaLocalDriver.HandOver | src/openhdo_linker/tuya.py:935-937 | a frame settles the future entered under its number, if any, and removes the entry |
| Driver.TuyaLocalDriver.FailPending | src/openhdo_linker/tuya.py:749-752 | the loop over the table fails every future not done and empties it |
| Driver.TuyaLocalDriver.Disconnect | src/openhdo_linker/tuya.py:741-755 | disconnecting forgets connection and session key and fails all requests |
| Driver.TuyaLocalDriver.Connect | src/openhdo_linker/tuya.py:724-739 | a handshake that verifies and completes leaves the session key of both nonces; any failure, of the finish message too, leaves the driver disconnected without a key |
| Driver.TuyaLocalDriver.Ask | src/openhdo_linker/tuya.py:894-920 | if the attempts before one only missed and that one is answered, the call returns exactly the decode of the answer; one that is cancelled or raises is the last; without either, nothing is returned only after retries + 1 requests; and in all cases the call is the loop proved in Asking |
| Driver.TuyaLocalDriver.TryOnce | src/openhdo_linker/tuya.py:899-919 | one turn of the loop connects if it has to and makes one attempt |
| Driver.TuyaLocalDriver.RequestOnce | src/openhdo_linker/tuya.py:902-909 | a request is registered, written and waited for as the specified attempt is, with what others do meanwhile |
| Driver.TuyaLocalDriver.AwaitReply | src/openhdo_linker/tuya.py:909-916 | the wait ends in the decoded reply, the error path or an exit, and a timeout wins over a reply that has only just come |
| Driver.TuyaLocalDriver.Wait | src/openhdo_linker/tuya.py:724-755 | what the reader and other tasks do at an await acts on the requests step by step |
| Driver.TuyaLocalDriver.AfterError | src/openhdo_linker/tuya.py:912-919 | the error path disconnects before the loop goes on |
| Driver.TuyaLocalDriver.Prepare | src/openhdo_linker/tuya.py:807-847 | an operation for another device is refused, and otherwise writes the values of the command |
| Driver.TuyaLocalDriver.CommitPoll | src/openhdo_linker/tuya.py:757-769 | the reply of a poll changes the cache as one poll event, even when it does not decode; the error is a plain ValueError exactly for a refused colour |
| Driver.TuyaLocalDriver.CommitSetValues | src/openhdo_linker/tuya.py:849-862 | the second assignment after a command rolls no revision back |
| Driver.TuyaLocalDriver.CommitInspect | src/openhdo_linker/tuya.py:771-784 | an inspection replaces the data points and leaves the light state alone |
| Driver.TuyaLocalDriver.HandlePush | src/openhdo_linker/tuya.py:947-964 | a push changes the cache as one push event; it fails if and only if it parses, a mapping is set, and the merged data points hold a power, a brightness and a refused colour |
| Driver.TuyaLocalDriver.ReaderTurn | src/openhdo_linker/tuya.py:928-945 | a status push touches the cache only, any other frame the table only; the reader dies exactly at a status frame that does not decode or whose push fails, and then fails every request |
| Driver.TuyaLocalDriver.Subscribe | src/openhdo_linker/tuya.py:796-799 | a callback is accepted exactly for the current device, and appended to its callbacks |
| Driver.TuyaLocalDriver.Unsubscribe | src/openhdo_linker/tuya.py:801-805 | one occurrence of the callback is removed, if there is one |
| Driver.TuyaLocalDriver.Discover | src/openhdo_linker/tuya.py:539-549 | the candidates are those of the latest scan, keyed by their derived ids |
| Driver.TuyaLocalDriver.MoveCallbacks | src/openhdo_linker/tuya.py:578-580 | the callbacks of the previous device move to the new one |
| Driver.TuyaLocalDriver.RollBack | src/openhdo_linker/tuya.py:583-588 | the error handler closes the connection and restores device and light id, unless it is cancelled while it waits for an open connection to close |
| Driver.TuyaLocalDriver.Pair | src/openhdo_linker/tuya.py:551-589 | success binds the candidate under its discovered address and id with everything else from the profile; a pairing in which nothing goes wrong for good succeeds; the binding changes as the transaction proved in Pairing; requests of the old connection are all settled, a rollback leaves no connection, and success an open one with nothing outstanding unless another task acted on it |
| Driver.TuyaLocalDriver.BindTo | src/openhdo_linker/tuya.py:572-589 | leaving the old device, the guarded part and the error handler compose to the transaction, on binding and requests |
| Driver.TuyaLocalDriver.TryBind | src/openhdo_linker/tuya.py:575-581 | the guarded part connects, polls, saves and commits as specified |
| Driver.PairedOutcome | src/openhdo_linker/tuya.py:551-589 | what a pairing leaves of the requests: old ones settled, no connection after a rollback, none outstanding after an undisturbed success |
| Driver.PairSucceeds | src/openhdo_linker/tuya.py:551-589 | from the network up: if the link opens, an allowed attempt is answered with bytes that read as a light state, and the file can be written, the pairing succeeds |
| Driver.TuyaLocalDriver.ReceivePushes | src/openhdo_linker/tuya.py:928-964 | pushes that arrive while pairing waits act on the cache one after the other |
| Boundary.AdmittedMeaning | src/openhdo_linker/boundary.py:190-220 | discovery and pairing requests are handed on; a message gets past the checks exactly when it is a command for the controlled light with a command id and a key of 1 to 128 characters; every other answer says why, under the three ids of the command or their fallbacks |
| Boundary.ActionMeaning | src/openhdo_linker/boundary.py:233-252 | a command message starts an operation exactly when its body asks for that operation under that message type |
| Boundary.RequiredStringExact | src/openhdo_linker/boundary.py:290-294 | a required field is exactly a text of 1 to 128 characters |
| Boundary.FirstPutIsFound | src/openhdo_linker/boundary.py:34-39 | after any sequence of puts a key holds exactly what was put first under it, and nothing if nothing was |
| Boundary.MemoryCommandJournal.Put | src/openhdo_linker/boundary.py:38-39 | the first result of a key stays |
| Boundary.LinkerBoundary.constructor | src/openhdo_linker/boundary.py:51-69 | a missing or empty light id falls back to the descriptor's, a missing or empty device id to the light id; the journal starts empty |
| Boundary.LinkerBoundary.Screen | src/openhdo_linker/boundary.py:190-220 | the checks before the command lock classify a message as specified and change nothing |
| Boundary.LinkerBoundary.TakeTurn | src/openhdo_linker/boundary.py:222-252 | the lock holder answers from the journal, records a malformed body, or goes on to the operation with the journal unchanged |
| Boundary.LinkerBoundary.Finish | src/openhdo_linker/boundary.py:253-269 | an operation that returned a state is answered as applied with it, any other as failed, under the ids of its request, and so recorded |
| Boundary.LinkerBoundary.AdoptPairing | src/openhdo_linker/boundary.py:120-153 | light and device change together, and only for a result that names the requested candidate |
| Boundary.AtMostOnce | src/openhdo_linker/boundary.py:190-269 | over every interleaving, the operations started for a key are those cancelled in mid-operation plus at most one, recorded or running |
| Boundary.OncePerKey | src/openhdo_linker/boundary.py:190-269 | a key whose operation was never cancelled half-way never runs twice |
| Boundary.JournalStable | src/openhdo_linker/boundary.py:28-39 | a journal entry never changes once written, whatever happens afterwards |
| Boundary.EnterMeaning | src/openhdo_linker/boundary.py:222-252 | in every run the lock holder with an unrecorded key starts exactly the operation its body asks for, or is refused and recorded |
| Boundary.CompleteMeaning | src/openhdo_linker/boundary.py:253-270 | in every run a finished operation is answered and recorded as applied with its state, or as failed |
| Boundary.AnswerStays | src/openhdo_linker/boundary.py:34-39 | no later step changes an answer or its record |
| Boundary.CommandRuns | src/openhdo_linker/boundary.py:190-270 | from envelope to result: a command for the light under a new key starts the operation its body asks for and is answered with what it returns |
| Boundary.RepeatsAgree | src/openhdo_linker/boundary.py:222-231 | any two answered calls with one key got the same payload, or one of them carried another command id and was turned away |
| Boundary.RepeatIsAnswered | src/openhdo_linker/boundary.py:222-231 | in every run a call whose key is recorded starts no operation, changes no entry, and gets the recorded payload or, under another command id, a conflict |
| Boundary.CallsAreAdmitted | src/openhdo_linker/boundary.py:233-269 | each operation started belongs to its own admitted task and is the one its body asked for |
| Boundary.CancelledMayRepeat | src/openhdo_linker/boundary.py:222-231 | after a cancellation in mid-operation the next admitted call with the key starts another operation |
| Redaction.FindMeaning | src/openhdo_linker/cli.py:82-85 | the position replaced is the leftmost occurrence, and no position means no occurrence |
| Redaction.ReplaceExact | src/openhdo_linker/cli.py:85 | the replacement is exactly the text with its leftmost occurrences, one after the other, exchanged for marks |
| Redaction.CutsMeaning | src/openhdo_linker/cli.py:85 | the parts between the occurrences, joined by the secret, are the text, and none contains the secret |
| Redaction.CutsUnique | src/openhdo_linker/cli.py:85 | the parts are determined by the text |
| Redaction.ReplaceRemoves | src/openhdo_linker/cli.py:82-85 | replacing a removable secret leaves no occurrence of it |
| Redaction.ReplaceKeepsAway | src/openhdo_linker/cli.py:82-85 | replacing any text puts no removable secret together again |
| Redaction.PlainSecretRemovable | src/openhdo_linker/cli.py:82-85 | a secret without square brackets that is not part of the word REDACTED is removable |
| Redaction.RemovableExact | src/openhdo_linker/cli.py:82-85 | for a secret without an opening bracket, being removable is exactly what makes its replacement complete on every text |
| Redaction.RedactString | src/openhdo_linker/cli.py:82-86 | the loop over the secrets exchanges the occurrences of each for marks, in order, and keeps all the text between them |
| Redaction.RedactExact | src/openhdo_linker/cli.py:82-86 | one replacement after the other, each exact, is what the text becomes and nothing else is |
| Redaction.RedactComplete | src/openhdo_linker/cli.py:82-86 | after all replacements none of the secrets is left |
| Redaction.RedactChanges | src/openhdo_linker/cli.py:82-86 | a string changes if and only if a secret occurs in it |
| Redaction.SanitizeComplete | src/openhdo_linker/cli.py:73-86 | no string at any depth of the output contains a secret, and no dropped key is left |
| Redaction.SanitizeMeaning | src/openhdo_linker/cli.py:73-86 | the output at every depth: strings with the replacements, lists element by element, objects with the surviving keys and their redacted values, all else unchanged |
| Redaction.DroppedNames | src/openhdo_linker/cli.py:78 | the four dropped names, in any case of letter |
| Redaction.SanitizeMinimal | src/openhdo_linker/cli.py:73-86 | a value without secrets and dropped keys is changed by key and sequence conversion alone |
| Redaction.ConvertedPlain | src/openhdo_linker/cli.py:73-86 | the conversion leaves values with string keys and lists as they are |
| Redaction.SanitizeIdempotent | src/openhdo_linker/cli.py:73-86 | redacting twice is redacting once |
| Redaction.InspectionClean | src/openhdo_linker/cli.py:89-98 | the whole inspection payload is free of secrets longer than its type names |
| Redaction.KeysAreKept | src/openhdo_linker/cli.py:74-79 | keys that are not dropped are printed unredacted |
| Redaction.SurvivorsKept | src/openhdo_linker/cli.py:74-79 | the output of a mapping holds exactly its entries that are not dropped and not overwritten by a later key with the same text |
| Redaction.FreeWithKeys | src/openhdo_linker/cli.py:73-86 | the output, keys included, is free of secrets if and only if no key that reaches it, at any depth, contained one |

## Left out

- Sockets, UDP scanning, the 6699 discovery frames and the parsing of discovery datagrams: only the list of found devices enters the model.
- WebSocket transport, message envelopes with their timestamps, the texts of errors, signal handling, argument parsing and logging.
- Validation of the runtime configuration, apart from the conditions that the data-point mapping, device and pairing profile keep.
- Requests for discovery and pairing: their field checks and completion messages, and the time limits around them; a timeout is a cancellation.
- Backoff, time limits and the overall deadline of a handshake: attempts and writes are counted instead.
- The loop of the publisher with its delay and last error: its lock, its checks of the device id and the traffic it causes are steps of Agreement.
- The order of state reports on the server connection: result and state are sent separately, so no order is claimed.
- Two tasks racing inside connect, and errors from closing a connection.
- A disconnect that is cancelled between ending the reader and clearing the table leaves a connection without a reader: the model keeps it as open.
- Callbacks: which device they are registered for is modelled, calling them is not.
- Integer texts that Python reads beyond plain digits (underscores, other scripts, surrounding blanks, a sign before hexadecimal digits), JSON numbers that are infinite or not a number, and the rounding of floating-point quotients.
- The bodies of polls and inspections, apart from how they are encoded: which data points a reply reports is a parameter.
- Redaction.RemovableExact: for a secret with an opening bracket only sufficiency is proved (Redaction.RedactComplete), because whether such a secret can reappear also depends on how its occurrences overlap.
- Exchange.NoLateReply: is stated up to 2^32 allocations, which Exchange.LateReplyAfterWrap shows to be the limit.
