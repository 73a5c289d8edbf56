# A verified model of dpaste

dpaste is a pastebin over a distributed hash table. A paste is wrapped in a MessagePack
packet, encrypted or signed if wanted, and stored under a random eight-digit PIN, through an
HTTP proxy or, where that fails, by the local node. Whoever has the PIN gets the value back;
the getter works out from the stored bytes and the length of the PIN how it was protected.

The project models that path from the command line to the store and back, the two blocking
handshakes of the node, and the configuration file.

| file | what it models |
|---|---|
| `Outcomes.dfy` | optional results, and results that may be an exception |
| `BigEndian.dfy`, `MsgPack.dfy` | the MessagePack format: all value kinds, the shortest-form packer, the unpacker |
| `Packets.dfy` | `Bin::Packet`: serialising, deserialising, `findMapValue`, `data_from_stream` |
| `Pins.dfy`, `Uris.dfy` | PINs as hexadecimal text, `dpaste:` URIs |
| `Ciphers.dfy` | choice of cipher and the code around the crypto engines |
| `Bins.dfy` | `Bin` over a shared store: `prepare_data`, `paste`, `get` |
| `Runs.dfy` | whole runs of pastes by any clients, and what a reader gets |
| `Handshakes.dfy` | blocking `Node::paste` and `Node::stop` as two-thread state machines |
| `Config.dfy` | `ConfigurationFile::load` |
| `CommandLine.dfy` | `parseArgs`, `params_from_args` and what `main` does then |

Check it with `dafny verify dfyconfig.toml`.

## Assumptions

* The crypto engines are parameters (`Ciphers.Engine`), one for each machine. `Compatible`
  states what is asked of a writer's and a reader's engine: what was sealed is opened, what
  was signed is verified, AES cipher text and signatures are not empty. GPG cipher text is
  opened with the zero byte that dpaste writes behind it, by a reader who holds the secret key
  of one of its recipients.
* Where a result says that a paste does not come back, it also asks for `Separate`: decryption
  never answers with its own input, and GPG does not open AES cipher text to the right bytes.
  `MarkingEngine` is an engine that meets all these laws.
* Nothing is asked of GpgME's classifier (`pgpEncrypted`). Results say what happens for either
  answer of it.
* A transport that reports success has stored the value; one that reports failure may have.
  Asked for a code, the proxy answers with one of the values under it or with nothing, and the
  node with any of them in any order.
* Numbers drawn at random are inputs; that a code is not drawn twice is a precondition of the
  results on runs. Different location codes do not collide in the hash.
* msgpack-c turns binary data and strings, and nothing else, into a byte vector; a value cut
  short raises `unpack_error`, which is no `type_error`.
* The node runs its callbacks in a thread of its own.

## What was found

* GPG-encrypted data comes back with a zero byte at its end, all other data as it was pasted
  (`UnchangedIffNotPgpSealed`, `ZeroByteRun`).
* A paste in the clear comes back exactly where the pasted bytes are not themselves PGP cipher
  text (`ClearPasteComesBackIff`). Such bytes are decrypted, or the getter fails
  (`PastedCipherText`, `CipherTextRun`).
* An AES paste that is asked for without its password half is printed as cipher text, and
  reported as a success (`AesWithoutPassword`).
* A paste without parameters leaves the cipher scheme uninitialised. It works exactly where
  that memory does not read as AES (`PlainPasteNeedsSchemeSet`).
* Blocking `Node::paste` leaves its flag uninitialised. It is truthful exactly where the flag
  starts as false (`TruthfulIffFlagUnset`), and even then its callback may still use the
  condition variable after the operation returned, though only after a spurious wake-up
  (`PasteOrderedIffNoSpurious`).
* `Node::stop` joins the DHT's thread while it holds the mutex that the callback locks. That its
  flag starts as false is what keeps it from a deadlock (`StopLiveIffFlagUnset`).
* Blobs of older versions are returned as they are exactly where they start with a complete
  MessagePack value that is no packet (`LegacyBlob`). A blob that is no complete value ends `get` with
  an exception (`LegacyRaises`).
* The help says that malformed configuration lines are left out. A line in which a later piece
  names an option is not (`DocumentedFormat`, `LateKeyExample`); the model follows the code.
* `--gpg-encrypt` without a recipient, and recipients without `--gpg-encrypt`, store the input
  in the clear (`OptionsChooseScheme`).
* Input beyond 65536 bytes is cut off silently (`StreamRoundTrip`), and input of 65513 to 65536
  bytes makes packets larger than the DHT's limit (`PlainPacketFitsValue`).

## Model

| member | source | states |
|---|---|---|
| MsgPack.UnpackPack | src/bin.cpp:202-214 | every MessagePack value that is packed is read back exactly, whatever bytes follow it |
| MsgPack.UnpackExtension | src/bin.cpp:214 | for any readable input, canonical or not, appended bytes do not change the value read and are all left over |
| MsgPack.TruncationRefused | src/bin.cpp:214 | every strict prefix of a packed value is refused |
| MsgPack.MapsAreMarked | src/bin.cpp:193 | the value read is a map exactly where the first byte is 0x80 to 0x8f, 0xde or 0xdf |
| MsgPack.RawMarkers | src/bin.cpp:214 | the six markers for binary data and strings, each with a length of one, two or four bytes behind it, whether the value needs that many or not |
| MsgPack.SignedMarkers | src/bin.cpp:214 | signed integers of 1, 2, 4 and 8 bytes: the highest byte counts from -128 to 127, the others add to it |
| MsgPack.BinHeadBytes | src/bin.cpp:208-209 | the bytes the packer puts before binary data: marker and length, the most significant byte first, in the shortest form |
| Packets.FindMapValue | src/bin.cpp:191-200 | raises for a non-map; otherwise yields the value of the first entry whose key is that string, or nothing when no entry has it |
| Packets.Packet.Serialize | src/bin.cpp:202-211 | the buffer appended piece by piece is the packed three-entry map; fields of 2^32 bytes or more raise |
| Packets.Packet.Deserialize | src/bin.cpp:213-223 | the fields become those of the packet read; on each kind of exception exactly the part reached was cleared or refilled |
| Packets.WireBytes | src/bin.cpp:202-211 | the serialised packet byte for byte, with version 0 and the three keys |
| Packets.PacketRoundTrip | src/bin.cpp:202-223 | serialising and deserialising gives the same data and signature, for all sizes and every trailing byte string |
| Packets.WireIsPrefixFree | src/bin.cpp:202-211 | no packet's bytes start another packet's bytes |
| Packets.TruncatedPacket | src/bin.cpp:213-214 | a packet cut short always raises, and is never read as another packet or as an old blob |
| Packets.WireSize | src/bin.cpp:202-211 | a packet takes 19 bytes, its two fields, and 2, 3 or 5 bytes for each of them |
| Packets.PlainPacketFitsValue | src/bin.cpp:112-118 | an unsigned packet of stream input fits 65536 bytes exactly for inputs of at most 65512 bytes |
| Packets.ReaderTolerance | src/bin.cpp:191-223 | two blobs in any encoding hold the same packet when their known entries agree up to order and no known key repeats |
| Packets.ForeignEntriesIgnored | src/bin.cpp:191-200 | entries with other or non-string keys, anywhere and in any number, change nothing, duplicates of known keys included |
| Packets.FirstEntryWins | src/bin.cpp:194-198 | with a repeated key the earlier entry decides |
| Packets.FieldsShorter | src/bin.cpp:213-223 | the data read out of a blob is shorter than the blob |
| Packets.UnmarkedIsNoPacket | src/bin.cpp:193 | a complete value that does not start with a map marker raises a type error |
| Packets.ReadIffHeld | src/bin.cpp:213-223 | a blob is read as a packet exactly where its first value is a map whose first "data" and "signature" entries, if any, are byte strings; the other two outcomes follow from that value too |
| Packets.ReadFields | src/bin.cpp:217-222 | what is read as data and as signature is what the first entry under that key holds, and empty where there is no such entry |
| Packets.DataAlone | src/bin.cpp:217-222 | a blob written as a map with a "data" entry only, its length in any of three widths, is that data without a signature |
| Pins.UpperInPlace | src/bin.cpp:133 | the text is raised to upper case in place, character by character |
| Pins.StreamText | src/bin.cpp:130-133 | the stream's unpadded lower-case text, padded with zeros and raised to upper case, is the fixed-width text |
| Pins.RandomPin | src/bin.cpp:120-135 | the PIN of the drawn number |
| Pins.PinRoundTrip | src/bin.cpp:129-134 | a PIN is upper-case hexadecimal and gives its 32-bit number back |
| Pins.PinOnto | src/bin.cpp:129-134 | every eight upper-case hexadecimal digits are the PIN of a 32-bit number |
| Pins.PinInjective | src/bin.cpp:129-134 | different numbers have different PINs |
| Pins.PinDigits | src/bin.cpp:131 | digit k of a PIN, from the left, is digit (pin / 16^(7-k)) mod 16 of 0123456789ABCDEF |
| Uris.CodeAfterPrefix | src/bin.cpp:55-59 | whatever stands before the first prefix is skipped, and all that follows it is the code |
| Uris.WithoutPrefix | src/bin.cpp:58 | text in which the whole prefix does not occur is its own code |
| Uris.BareCode | src/bin.cpp:55-59 | text without a colon is its own code |
| Uris.Find | src/bin.cpp:57 | the first occurrence of the prefix, or none where it does not occur |
| Ciphers.DataToVector | src/gpgcrypto.cpp:37-46 | reading in chunks collects all of the data |
| Ciphers.Encrypt | src/gpgcrypto.cpp:103-140 | the engine is asked with the keys of all recipients in order and with the signing key exactly where signing is wanted, for the data and a zero byte; its cipher text gets another zero byte; raises only for a missing key or where the engine fails |
| Ciphers.ProcessPlainText | src/gpgcrypto.cpp:67-85 | AES seals with the password; GPG seals for all recipients, the signer included if wanted, and gives nothing exactly where there are no recipients |
| Ciphers.ByScheme | src/gpgcrypto.cpp:48-53 | a GPG cipher object has a signing key exactly where it has a signer, so the missing-key return of `encrypt` is never taken; only a missing key raises |
| Bins.Bin.PrepareData | src/bin.cpp:137-173 | the packet that the request's mode calls for, and the password of the code |
| Bins.Bin.Paste | src/bin.cpp:175-189 | the new store, and the URI, the failure or the exception; the store is unchanged by an exception |
| Bins.Bin.PasteStream | src/bin.h:73-76 | pasting a stream is pasting its first 65536 bytes |
| Bins.Bin.Get | src/bin.cpp:61-110 | both transports are asked for the first eight characters of the code, the proxy first; then what the blob, the PIN and the decrypt flag lead to, in all error cases |
| Bins.Network.NodeGet | src/node.cpp:79-88 | the loop turns the values found under the code into their blobs, in order |
| Bins.Bin.constructor | src/bin.cpp:39-53 | the configuration is that of the loaded file, and every setting asked for later is there |
| Bins.TwoPuts | src/bin.cpp:184-186 | trying the node only after HTTP's failure leaves at most two copies of the same blob |
| Bins.ProxyFirst | src/bin.cpp:68-72 | a non-empty value from the proxy is taken, whatever the node would find |
| Bins.NodeFront | src/bin.cpp:72-77 | where the proxy gives nothing, the first value the node finds is taken |
| Runs.OtherCodesKeep | src/bin.cpp:175-189 | pastes under other PINs leave the values of a code alone, over any run |
| Runs.AllValuesSame | src/bin.cpp:183-188 | after any run all values under a code that one paste used are its one blob, once for each transport that kept it; none if it raised |
| Runs.GetterFindsBlob | src/bin.cpp:62-77 | the location part that the getter cuts out of any accepted text finds the pasted blob after any run, whichever transport stored it and whichever answers |
| Runs.ReportedIsServed | src/bin.cpp:184-188 | after any run the URI that a paste returned is answered, by the proxy and by the node, with the first value they find |
| Runs.GetOpensPacket | src/bin.cpp:61-110 | for every accepted way to write the code, after any run, looking it up and opening what is found is opening the sealed packet |
| Runs.FullCodeSplits | src/bin.cpp:63-65 | location code and password are cut apart as they were joined; the code has 16 digits exactly for AES |
| Runs.SchemeAgreement | src/cipher.cpp:37-58 | the getter's cipher is the paster's exactly where the stored data classifies as PGP if and only if it was GPG encrypted; the password cut off is the one used; the signature covers exactly the stored data |
| Runs.OpenUndoesSeal | src/bin.cpp:79-99 | opening gives back what was sealed where the stored data classifies as PGP if and only if it was GPG encrypted, and for separate engines only there |
| Runs.EndToEnd | src/bin.cpp:61-189 | after any run a reader gets the pasted bytes, with a zero byte added by GPG encryption, where the stored data classifies as PGP if and only if it was GPG encrypted, and for separate engines only there |
| Runs.UriRoundTrip | src/bin.cpp:61-189 | getting the returned URI gives the pasted bytes, with a zero byte added by GPG encryption |
| Runs.UnchangedIffNotPgpSealed | src/gpgcrypto.cpp:106-140 | well classified data comes back as it was pasted exactly where it was not GPG encrypted; else with one zero byte more |
| Runs.ZeroByteRun | src/gpgcrypto.cpp:110-111 | a run in which a GPG-encrypted paste comes back with the zero byte |
| Runs.ClearPasteComesBackIff | src/cipher.cpp:37-43 | a paste in the clear, signed or not, comes back exactly where the pasted bytes do not classify as PGP cipher text |
| Runs.PastedCipherText | src/bin.cpp:83-92 | pasted PGP cipher text comes back decrypted, or the getter fails |
| Runs.CipherTextRun | src/bin.cpp:83-102 | a run in which a plain paste of such data cannot be got |
| Runs.StreamRoundTrip | src/bin.cpp:112-118 | of a pasted stream the first 65536 bytes come back, so all of it exactly up to that size |
| Runs.AesWithoutPassword | src/cipher.cpp:40-42 | an AES paste got with its location code alone is printed as cipher text, with success |
| Runs.NoDecryptReturnsStored | src/bin.cpp:84-92 | without decryption the stored data comes back, for every mode |
| Runs.SelfRecipientReads | src/gpgcrypto.cpp:73-75 | a paster who is included as a recipient can read the own paste |
| Runs.PlainPacket | src/bin.cpp:170-171 | without parameters the packet is the data, unsigned |
| Runs.AesPacket | src/bin.cpp:151-169 | with AES the packet is what the engine seals under the drawn password, and the code ends in that password |
| Runs.PgpPacket | src/gpgcrypto.cpp:67-140 | for GPG recipients the packet is exactly what the engine seals for all recipients' keys, the own key last where included, signed by the own key where wanted and configured |
| Runs.ClearGpgPacket | src/bin.cpp:161-167 | GPG without recipients leaves the data clear, with a signature exactly where wanted and configured, and raises for a missing key |
| Runs.PasteOutcome | src/bin.cpp:175-189 | the URI is returned exactly where a transport reports success, and empty text else; the packet is appended under the code once for each transport that stores it, and no other code changes |
| Runs.ReturnedUriIff | src/bin.cpp:184-188 | over a run the URI is returned exactly where HTTP or the node reports success, and is then served |
| Runs.GetClear | src/bin.cpp:91-102 | a packet taken for clear comes back exactly where it is unsigned or its signature verifies; otherwise the getter fails |
| Runs.GetSealed | src/bin.cpp:83-105 | a packet taken for cipher text is opened by GPG, or by AES with what follows the first eight characters, and the getter fails where that fails; without decryption it comes back as stored |
| Runs.GetNothing | src/bin.cpp:63-65 | codes under eight characters raise; where nothing is stored the getter succeeds with nothing |
| Runs.NoSilentPlaintext | src/bin.cpp:159-171 | a paste that is to be encrypted stores nothing, or the engine's cipher text without a signature |
| Runs.PlainPasteNeedsSchemeSet | src/bin.cpp:142-157 | pastes without parameters come back for all engines and data exactly where the uninitialised scheme does not read as AES |
| Runs.LegacyBlob | src/bin.cpp:79-109 | a blob comes back byte for byte, decrypted or not, exactly where it starts with a complete value that is no map with byte strings as its known entries |
| Runs.LegacyUnmarked | src/bin.cpp:106 | getting a blob that starts with a complete value other than a map gives it back byte for byte, for any text, flag and transport |
| Runs.LegacyText | src/bin.cpp:106 | so does getting a blob that starts with an ASCII character |
| Runs.LegacyRaises | src/bin.cpp:100-106 | getting ends in an exception exactly for blobs that do not start with a complete MessagePack value |
| Runs.LegacyCounterexample | src/bin.cpp:106 | an old blob that makes getting raise |
| Handshakes.StepKeepsInv | src/node.cpp:43-58 | every step of either thread, spurious wake-ups included, keeps mutual exclusion, the flag's meaning and the pending notification |
| Handshakes.AlwaysTruthful | src/node.h:67-85 | in every interleaving both operations return only after the callback ran, and `paste` returns what it was told |
| Handshakes.TruthfulIffFlagUnset | src/node.cpp:43-59 | all runs of `paste` return only after the callback ran, and return what it was told, exactly where the flag starts as false |
| Handshakes.PasteReturnsWhatWasTold | src/node.cpp:47-59 | in a run in which `paste` has returned, the callback was called once, and its argument is the result |
| Handshakes.ReturnsUncalled | src/node.cpp:46 | the run that returns failure before the callback was called |
| Handshakes.NoLostWakeup | src/node.cpp:45-58 | in every reachable state a sleeping waiter is still owed its notification |
| Handshakes.NeverStuck | src/node.cpp:43-59 | as long as the operation is not over something other than a spurious wake-up can happen |
| Handshakes.EveryRunReturns | src/node.cpp:43-59 | runs are bounded by their spurious wake-ups, and end only with the operation returned and the callback finished |
| Handshakes.CanAlwaysReturn | src/node.h:67-85 | from every state both operations can be driven to their end without spurious wake-ups |
| Handshakes.StopIsOrdered | src/node.h:72-83 | once the waiter of `stop` is past the check the callback is completely through, so its last use of the condition variable came before and the join does not wait |
| Handshakes.StopLiveIffFlagUnset | src/node.h:70-84 | in every reachable state of `stop` a thread can go on, exactly where the flag starts as false |
| Handshakes.StopDeadlocks | src/node.h:80-83 | the deadlock of a join under the mutex that the initial flag prevents |
| Handshakes.PasteOrderedIffNoSpurious | src/node.cpp:52-58 | `paste` keeps that order in all runs exactly where no spurious wake-up occurs |
| Handshakes.PasteCanBeUnordered | src/node.cpp:52-58 | the run in which `paste` returns before its callback notifies |
| Config.TrimStr | src/conf.cpp:26-30 | the text without its outer spaces, blank and empty text included |
| Config.TrimIsUnique | src/conf.cpp:26-30 | no other result has no outer spaces and only spaces cut off |
| Config.ConfigurationFile.Load | src/conf.cpp:32-54 | a missing file gives 1 and changes nothing; otherwise all lines are applied in order; the configuration stays sound |
| Config.ConfigurationFile.LoadLine | src/conf.cpp:39-51 | the inner loop applies what the line assigns |
| Config.LineMeaning | src/conf.cpp:41-50 | a line sets a key to a value exactly where its first piece that names a key names this one and the value is the trimmed, non-empty rest |
| Config.OptionLineSets | src/conf.h:54-59 | OPTION = VALUE, with any spaces around both parts and any further '=' signs in the value, sets the option to the value |
| Config.FirstLine | src/conf.cpp:38 | the lines of text that starts with a line and a newline are that line and the lines of the rest |
| Config.LastLineSets | src/conf.cpp:37-52 | after a file that ends in such a line the option has the value, whatever stands before |
| Config.FileMeaning | src/conf.cpp:37-52 | after loading a key has a value exactly where, among the stretches of the text between newlines, the last one that sets the key says so, or none does and it had it before |
| Config.LoadTwice | src/conf.cpp:37-52 | loading a file twice is loading it once, from any configuration |
| Config.LoadConcatenation | src/conf.cpp:37-52 | loading two files in turn is loading them joined by a newline, from any configuration |
| Config.AlwaysSound | src/conf.h:38-50 | after any number of loads the keys are the three known ones, host and port are not empty, and no value has outer spaces |
| Config.DocumentedFormat | src/conf.h:54-59 | a line is read as OPTION = VALUE, or left out, exactly where no later piece is the first to name a key with text behind it |
| Config.LateKeyExample | src/conf.h:54-59 | a malformed line that is not left out |
| Config.ForeignPieceSkipped | src/conf.cpp:41-50 | a piece that names no key, put in front of a line, changes nothing about what the line sets |
| CommandLine.ParseArgs | src/main.cpp:64-102 | every flag is set exactly where its option occurs before the first unknown one; the last code and all recipients in order; failure exactly for an unknown option |
| CommandLine.InformingCommands | src/main.cpp:172-181 | an unknown option exits with 1 whatever else there is; else help is printed, else the version |
| CommandLine.GetCommand | src/main.cpp:186-187 | else the last code given is got, without decryption exactly where --no-decrypt is given |
| CommandLine.GetCommandAnswers | src/main.cpp:186-191 | after any run such a command line ends with the pasted bytes, or with --no-decrypt with the stored ones |
| CommandLine.PasteCommand | src/main.cpp:156-198 | without a code the input is pasted, with all parameters as the options give them |
| CommandLine.RecipientsInOrder | src/main.cpp:84-86 | recipients are collected in the order of their options |
| CommandLine.OptionsChooseScheme | src/main.cpp:156-169 | AES exactly with --aes-encrypt; else GPG exactly with --gpg-encrypt and a recipient; else no encryption |
| CommandLine.OptionsChooseSigning | src/main.cpp:156-169 | a paste is signed in the clear exactly with -s, a configured key and no encryption |
| CommandLine.EncryptingOptionsHidePlaintext | src/main.cpp:156-201 | with encrypting options a paste stores nothing or cipher text |
| CommandLine.UninitialisedFlagIrrelevant | src/main.cpp:162-165 | the recipient flag that a sign-only command line leaves uninitialised changes neither the store nor the answer of a paste |
| CommandLine.OrderIrrelevant | src/main.cpp:64-102 | reordering the options changes neither acceptance nor any flag nor which recipients there are |

## Left out

- HTTP, JSON and base64 (src/http_client.cpp): only "nothing or a stored value", and a put that reports truthfully on success.
- The internals of AES-GCM, GpgME and OpenDHT: engines and store with stated laws.
- Quality and freshness of random numbers, and hash collisions: preconditions.
- Bins.Bin.constructor: the conversion of the port, the start of the node and the HTTP client are not modelled, because they are calls into libraries; the configuration is.
- Expiry of values after ten minutes: decided by OpenDHT.
- The asynchronous `Node::get` and `Node::paste`, and the flag of `Node::run`: each hands over or sets one thing.
- Messages, help text, printing and the exit status of a get or paste (0 exactly on success), reading of standard input, search for the configuration file, conversion of the port.
- The tokenising by getopt: options come as a list of tokens.
- Read errors of GpgME::Data, which end the chunk loop early: memory-backed data has none.
- Limits of the unpacker on nesting depth: msgpack-c's default is beyond any stored value.
- Cipher objects are values, since their fields do not change after construction; the packet, the configuration, the streams and the store are objects.
- The handshakes are state machines over single steps rather than running threads, and a callback run inside the call of `put` itself is not modelled.
