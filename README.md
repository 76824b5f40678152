# DogeSlot transaction engine and paytable, in Dafny

This project models the logic of a Dogecoin slot machine: the hand-built legacy transaction
engine behind its buy-in and cash-out flows, and the payout calculation for one spin.

The engine exists twice, in `cashOut.py` and `buyIn.py`. Its `varint`,
`create_script_pubkey`, `serialize_transaction` and `sign_transaction` are textual copies:
buyIn.py lines 56-64, 89-103, 151-187 and 189-223 repeat cashOut.py lines 44-52, 78-92,
164-200 and 202-236. The model defines them once. Only the two `create_raw_transaction`
planners differ, and both are modelled:

- **cash-out** adds dev-fee outputs and raises on insufficient funds;
- **buy-in** returns `None` on insufficient funds.

The modules follow the engine's parts:

- `Bytes` (bytes.dfy): bytes, little-endian packing (`struct.pack`), txid byte reversal.
- `CompactSize` (varint.dfy): `varint` and a decoder that inverts it.
- `Primitives` (primitives.dfy): SHA-256, RIPEMD-160, Base58, the secp256k1 verifying key and
  ECDSA signing. These are uninterpreted functions, held as fields of a datatype passed as a
  parameter. `WellBehaved` fixes their output lengths: 32 and 20 bytes for the hashes, a 64-byte
  point, and a DER signature of at most 72 bytes. `Base58RoundTrips` states that Base58 decoding
  inverts encoding. `b58decode_check` is modelled on top of raw decoding: split off 4 bytes and
  compare them with the double SHA-256 checksum.
- `Script` (script.dfy): `create_script_pubkey`, the address layout of `public_key_to_address`,
  `wif_to_privkey_hex` and `wif_to_address`.
- `Transaction` (transaction.dfy): UTXOs, inputs, outputs and the transaction record that the
  source keeps in dictionaries.
- `Planner` (planner.dfy): first-fit coin selection as a loop, the dev-fee split, both planners.
- `Wire` (wire.dfy): the legacy wire layout as a value, its encoding, and a parser that reads
  the encoding back.
- `Serializer` (serializer.dfy): `serialize_transaction` in both of its modes. The specification
  is `View`, which checks fields in the source's order, followed by `Encode`. The methods are the
  source's `result +=` loops, proved equal to it.
- `Signer` (signer.dfy): `sign_transaction` as a loop that fills in one input's scriptSig per
  step.
- `WinCalculator` (win_calculator.dfy): `payOutTable` and `calculate_win`.

Behaviours of the code worth knowing, all modelled as written:

- The code never checks that a decoded address is 21 bytes or that a hash is 20 bytes.
  `create_script_pubkey` pushes whatever follows the version byte, and fails only if that is
  256 bytes or longer, where `bytes([n])` raises.
- Insufficient funds carries no shortfall amount. Cash-out raises a plain exception, modelled as
  `Err(InsufficientFunds)`. Buy-in returns `None`.
- The fixed 0x02 key prefix is in `wif_to_address`, not in the signer. `sign_transaction` uses
  the true compressed key.
- `calculate_win` with two reels showing different icons does not raise. The chained
  comparison stops before reading `results[2]`, so only the bonus is paid.

## Model

| member | source | states |
|---|---|---|
| CompactSize.VarInt | cashOut.py:44-52 | one byte equal to n below 0xfd; otherwise marker 0xfd, 0xfe or 0xff with 3, 5 or 9 bytes in total. The first byte identifies the size class in both directions. |
| CompactSize.ParseVarIntOfVarInt | cashOut.py:44-52 | decoding `varint(n)` gives back n and leaves whatever bytes follow untouched, in every size class |
| CompactSize.VarIntBoundaries | cashOut.py:44-52 | at the class boundaries 0, 0xfc, 0xfd, 0xffff, 0x10000, 0xffffffff and 0x100000000 the sizes are 1, 1, 3, 3, 5, 5 and 9, and each value decodes back to itself |
| CompactSize.VarIntInjective | buyIn.py:56-64 | two counts with the same encoding are equal |
| CompactSize.ParseLEOfLE | cashOut.py:166 | reading back k little-endian bytes written by `struct.pack` gives the number and the rest of the buffer |
| Bytes.LE | cashOut.py:173 | a packed field has exactly its declared width |
| Bytes.FromLEOfLE | cashOut.py:166 | the little-endian bytes of n stand for n |
| Bytes.Reverse | cashOut.py:172 | the wire txid has the same length, and byte i is byte \|s\|-1-i of the displayed txid |
| Bytes.Take | buyIn.py:50 | `[:k]` is a prefix of length min(k, \|s\|) |
| Primitives.B58DecodeCheck | cashOut.py:80 | an accepted string decodes to the returned payload followed by that payload's 4-byte double-SHA-256 checksum |
| Primitives.B58DecodeCheckAccepts | cashOut.py:80 | conversely, a string whose bytes are a payload followed by its checksum is accepted and yields that payload |
| Primitives.B58CheckRoundTrip | cashOut.py:294-300 | checked decoding of a hand-built Base58Check encoding returns the payload |
| Primitives.Compressed | cashOut.py:207 | the compressed public key is 33 bytes: 0x02 when y is even, 0x03 when y is odd, then x |
| Script.P2PKH | cashOut.py:84-91 | the locking-script template is 5 bytes longer than the hash it pushes |
| Script.ParseP2PKHOfP2PKH | cashOut.py:84-91 | the template is recognised and gives back exactly the hash it was built from |
| Script.CreateScriptPubKey | cashOut.py:78-92 | fails with InvalidAddress exactly when checked decoding fails. Succeeds exactly when the hash after the version byte is under 256 bytes. The script is the P2PKH template of that hash, 25 bytes for a 21-byte payload. |
| Script.AddressBytes | cashOut.py:288-298 | the address payload is 25 bytes: version 0x1E, then RIPEMD-160(SHA-256(pk)), then the checksum of those 21 bytes |
| Script.PublicKeyToAddress | cashOut.py:288-300 | the address is the Base58Check encoding of version 0x1E followed by RIPEMD-160(SHA-256(pk)); AddressBytes fixes its 25-byte layout and ScriptOfDerivedAddress shows its locking script pays that hash |
| Script.ScriptOfDerivedAddress | cashOut.py:288-300 | the locking script of an address derived from a public key is the 25-byte P2PKH template of that key's hash |
| Script.WifToPrivKey | buyIn.py:28-33 | defined exactly when checked decoding succeeds. The key is the decoded payload minus its first and last byte: two bytes shorter, with payload = version ‖ key ‖ flag. |
| Script.WifToPrivKeyOfEncodeWif | buyIn.py:28-33 | the key is recovered from its compressed wallet-import format |
| Script.WifAddressKey | buyIn.py:41 | the key hashed by `wif_to_address` is 0x02 followed by the first 32 bytes of the point, whatever the parity of y |
| Script.WifToAddress | buyIn.py:35-54 | defined exactly when the WIF decodes and the key is accepted. The address is the Base58 encoding of 0x1E ‖ hash160(0x02 ‖ x) ‖ checksum. |
| Script.WifAddressKeyWrongForOddY | buyIn.py:41 | for every point with odd y, the key `wif_to_address` hashes differs from the compressed public key |
| Script.WifAddressKeyCounterexample | buyIn.py:41 | the point x = 0, y = 1 is such a point |
| Script.WifToAddressCorrected | buyIn.py:35-54 | defined in exactly the same cases as the original |
| Script.CorrectedAddressPaysSignerKey | buyIn.py:35-54 | the corrected address locks coins to the hash of the compressed key that the signer places in every scriptSig |
| Transaction.InputOf | cashOut.py:117-122 | an input copies the UTXO's txid, index, locking script and amount, with no scriptSig yet; SelectInputs states that input i is InputOf(utxos[i]) |
| Transaction.InputTotalSnoc | cashOut.py:123 | appending an input adds its amount to the running total |
| Transaction.OutputTotalAppend | cashOut.py:110 | the total of concatenated outputs is the sum of the parts' totals |
| Planner.FirstCoverUnique | cashOut.py:116-126 | the stopping point of the selection loop is determined |
| Planner.CoveredMonotone | cashOut.py:123 | with non-negative amounts, a longer prefix never totals less |
| Planner.InsufficientIffTotalShort | cashOut.py:128-130 | with non-negative amounts, no prefix reaches the target exactly when all UTXOs together fall short |
| Planner.SelectInputs | cashOut.py:116-126 | inputs are unsigned copies of a UTXO prefix, and the total is that prefix's sum. The prefix is the shortest non-empty one reaching the target, every shorter one falls short, and all UTXOs are taken when none reaches it. |
| Planner.TruncDiv | cashOut.py:101-103 | `int()` of a quotient truncates toward zero: floor for non-negative, ceiling for non-positive numerators |
| Planner.DevFeeAmount | cashOut.py:101-103 | a dev fee is the win differential times the rate, truncated toward zero: rounded down for a non-negative differential, up (never positive) for a negative one |
| Planner.DevFees | cashOut.py:100-104 | one entry per configured rule, in order: the rule's address and its share of the win differential |
| Planner.KeepPositive | cashOut.py:107 | an entry survives exactly when it was in the list with amount > 0; no entries are added |
| Planner.KeepPositiveAppend | cashOut.py:107 | filtering commutes with concatenation, so survivors keep their relative order |
| Planner.KeepPositiveNone | cashOut.py:107 | a list with no positive amount leaves nothing |
| Planner.NonPositiveShare | cashOut.py:101-103 | a share of a zero or negative differential is never positive |
| Planner.NoDevFeesWithoutWinnings | cashOut.py:100-107 | a zero or negative win differential produces no dev-fee outputs, whatever the rules |
| Planner.ConfiguredDevFees | cashOut.py:32-38 | with the configured 1%, 0% and 0% rules, only the first fee can survive. It is win/100 to the first address from a differential of 100 satoshis on, and nothing below that. |
| Planner.ChangeOutputs | cashOut.py:146-152 | a change output exists exactly when the surplus is positive; it pays the surplus to the change address, and the outputs it adds total the surplus or nothing |
| Planner.CashOutNeeded | cashOut.py:110 | the target is the amount plus the kept dev fees plus the miner fee; CreateRawTransactionCashOut selects inputs and signals insufficient funds against it |
| Planner.PlanFromSelection | cashOut.py:133-160 | a covering selection plus recipient, dev fees and positive change gives version 1, lock time 0, and inputs minus outputs equal to the fee |
| Planner.FirstCoverFallsShort | cashOut.py:128-130 | the loop's total at its stopping point falls short exactly in the insufficient-funds case |
| Planner.HeadTotal | cashOut.py:110 | the recipient output plus dev fees carries the amount plus the kept dev-fee total |
| Planner.CreateRawTransactionCashOut | cashOut.py:94-162 | fails exactly when no prefix covers amount + kept dev fees + fee. Otherwise: inputs are the first-cover prefix; outputs are the recipient, the positive dev fees in rule order, then change to the pool address only when positive; inputs minus outputs equals the fee. |
| Planner.CreateRawTransactionBuyIn | buyIn.py:105-149 | None exactly when no prefix covers amount + fee. Otherwise: inputs are the first-cover prefix; outputs are the recipient, then change to `from_address` only when positive; inputs minus outputs equals the fee. |
| Serializer.ScriptFor | cashOut.py:175-186 | the script written for input i: its scriptSig when broadcasting; when signing, the script code for the input being signed and nothing for the others. SigningBlanksOtherInputs, BroadcastUnsignedInput and InputResultsIgnoreScriptSigs state what it writes |
| Serializer.InputView | cashOut.py:171-188 | an input can be written exactly when vout fits 32 bits and its script length fits the varint. The failure is a value-out-of-range error. |
| Serializer.OutputView | cashOut.py:192-195 | an output can be written exactly when its amount fits 64 bits and create_script_pubkey succeeds for its address. An amount out of range always fails with the range error, before the address is looked at; otherwise a failure is create_script_pubkey's error. A written output carries the amount and the address's locking script. |
| Serializer.Collect | cashOut.py:171-195 | a loop that raises at the first failing item succeeds exactly when every item does, and then yields every item's value in order |
| Serializer.CollectErrorAt | cashOut.py:171-195 | a failed loop fails with the error of one of its items |
| Serializer.View | cashOut.py:164-200 | every number in a successful view fits the field it is packed into |
| Serializer.ViewOkIff | cashOut.py:164-200 | serialising succeeds exactly when version, lock time, counts, output indices, script lengths and amounts fit, and every output address decodes |
| Serializer.ViewContents | cashOut.py:164-200 | a successful serialisation keeps version, lock time and counts. Per input it writes the reversed txid, vout, the script the mode selects and sequence 0xffffffff. Per output it writes the amount and the locking script of the address. |
| Serializer.ViewInvalidAddress | cashOut.py:194 | an InvalidAddress failure comes from an output whose address does not decode |
| Serializer.Serialization | cashOut.py:164-200 | the bytes of `serialize_transaction` or the error it raises; Serialize shows the `+=` method computes it, ViewOkIff says when it fails, and SerializationParsesBack that its bytes parse back to the view |
| Serializer.InputResultsIgnoreScriptSigs | cashOut.py:175-182 | in signing mode, inputs are written the same for two transactions that differ only in scriptSigs |
| Serializer.SigningSerializationIgnoresScriptSigs | cashOut.py:175-182 | the signing serialisation does not depend on any input's existing scriptSig |
| Serializer.InputOfView | cashOut.py:171-188 | input i of a successful serialisation is the one the per-input step writes |
| Serializer.EmptyScriptInput | buyIn.py:169 | an input with an empty script is written as txid ‖ vout ‖ 0x00 ‖ ff ff ff ff |
| Serializer.SigningBlanksOtherInputs | buyIn.py:162-169 | when signing input k, every other input carries the one-byte empty script and input k carries the script code |
| Serializer.BroadcastUnsignedInput | buyIn.py:170-173 | when broadcasting, an input with no scriptSig yet is written with `varint(0)` |
| Serializer.SerializationParsesBack | cashOut.py:164-200 | with 32-byte txids, the bytes written parse back to exactly the transaction view |
| Serializer.SerializeInputs | cashOut.py:169-188 | the input loop's bytes are the encoding of every input in order. It fails exactly when, and with the error with which, collecting the inputs does. |
| Serializer.SerializeInput | cashOut.py:172-188 | one iteration writes the encoding of that input's view, or fails with the view's error |
| Serializer.SerializeOutputs | cashOut.py:191-195 | the output loop's bytes are the encoding of every output in order. It fails exactly when, and with the error with which, collecting the outputs does. |
| Serializer.SerializeOutput | cashOut.py:193-195 | one iteration writes the encoding of that output's view, or fails with the view's error |
| Serializer.Serialize | buyIn.py:151-187 | the bytes built by `+=` equal the encoding of the view, and the error raised is the view's error |
| Wire.EncodeInput | cashOut.py:172-188 | reversed txid, LE32 vout, varint length, script, LE32 sequence; ParseInputOf shows this layout reads back to the input |
| Wire.EncodeOutput | cashOut.py:193-195 | LE64 amount, varint length, locking script; ParseOutputOf shows this layout reads back to the output |
| Wire.Encode | cashOut.py:164-200 | LE32 version, varint input count, inputs, varint output count, outputs, LE32 lock time; ParseTxOfEncode shows the whole layout reads back to the transaction |
| Wire.EncodeInputsSnoc | cashOut.py:171-188 | appending an input appends its encoding |
| Wire.EncodeOutputsSnoc | cashOut.py:192-195 | appending an output appends its encoding |
| Wire.ParseScriptOf | cashOut.py:179 | a length-prefixed script reads back exactly, leaving what follows |
| Wire.ParseInputOf | cashOut.py:172-188 | a written 32-byte-txid input reads back exactly, leaving what follows |
| Wire.ParseOutputOf | cashOut.py:193-195 | a written output reads back exactly, leaving what follows |
| Wire.ParseInputsOf | cashOut.py:169-188 | a written list of inputs reads back exactly, given its count |
| Wire.ParseOutputsOf | cashOut.py:191-195 | a written list of outputs reads back exactly, given its count |
| Wire.ParseTxOfEncode | cashOut.py:164-200 | every transaction whose numbers fit and whose txids are 32 bytes is read back exactly from its encoding |
| Signer.SighashAllWordIsLE | cashOut.py:218 | the word appended to the preimage is `struct.pack("<I", 1)` |
| Signer.Preimage | cashOut.py:216-218 | the bytes signed for input i: the signing serialisation with that input's scriptPubKey as script code, then `struct.pack("<I", 1)` (SighashAllWordIsLE); SignedAt and SignTransaction tie each scriptSig to it, and PreimagesSurviveSigning shows signing does not change it |
| Signer.Signature | cashOut.py:221-225 | the pushed signature is 1 to 73 bytes long and ends in the SIGHASH_ALL byte 0x01 |
| Signer.ParseScriptSigOfScriptSig | cashOut.py:228-231 | the unlocking script splits back into exactly the signature and the public key |
| Signer.ScriptSig | cashOut.py:228-231 | varint(len sig) ‖ sig ‖ varint(len pk) ‖ pk; ParseScriptSigOfScriptSig shows it splits back into exactly the signature and the key |
| Signer.SignTransaction | cashOut.py:202-236 | fails with InvalidKey exactly when the key is rejected. It succeeds exactly when the key is accepted and every input's signing preimage serialises. Only scriptSigs change. Each input i gets varint ‖ sig(preimage_i) ‖ 0x01 ‖ varint ‖ compressed key. A serialisation failure is the failure of some input's preimage. |
| Signer.SignStep | buyIn.py:197-221 | one loop step keeps the other fields and the already-signed inputs, and signs input i |
| Signer.PreimagesSurviveSigning | buyIn.py:203 | every input's signing preimage is the same before and after signing |
| Signer.SignedInputUnlocks | buyIn.py:211-221 | every signed input's unlocking script parses into a signature ending in 0x01 and the signer's compressed public key |
| WinCalculator.SpecialIconIsOnlyKey | win_calculator.py:68-69 | the "In Any Reel" table's only key is `reel_icon_9.png`, with payout 1 |
| WinCalculator.Get | win_calculator.py:61 | a missing icon contributes 0, a present one its table value |
| WinCalculator.LongerRunsPayMore | win_calculator.py:5-38 | in the paytable a longer run never pays less for any icon, and no payout is negative |
| WinCalculator.RunExists | win_calculator.py:60-65 | every non-empty spin has a run length |
| WinCalculator.RunUnique | win_calculator.py:60-65 | the run length is unique |
| WinCalculator.LineWin | win_calculator.py:60-65 | raises (None) exactly on fewer than two reels, or two equal reels with no third. Otherwise the win is the tier payout of the run length times the bet: nothing below three, a longer run replacing a shorter one. |
| WinCalculator.Slice | win_calculator.py:72 | `results[lo:hi]` holds exactly the icons at positions lo..hi-1 that exist |
| WinCalculator.Bonus | win_calculator.py:71-85 | bets other than 3, 6 and 9 get no bonus |
| WinCalculator.BonusMatchesRule | win_calculator.py:71-85 | the condition cascade computes this rule: a special icon in the first three reels pays the bet, doubled for each active extra reel also showing it; otherwise a hit on an active extra reel pays the bet once |
| WinCalculator.NoBonusIffNoSpecialIcon | win_calculator.py:71-85 | for bets 3, 6 and 9, the bonus is zero exactly when no reel the bet activates shows the special icon |
| WinCalculator.MoreSpecialIconsNeverPayLess | win_calculator.py:71-85 | for a non-negative bet, showing the special icon on one more reel never lowers the bonus |
| WinCalculator.BonusIgnoresLaterReels | win_calculator.py:72-84 | reels past the fifth never change the bonus |
| WinCalculator.CalculateWin | win_calculator.py:45-93 | returns (win, credits + win). Negative credits, or a spin the line check cannot index, give (0, credits). Otherwise the win is line win plus bonus. |
| WinCalculator.LineWinNonNegative | win_calculator.py:60-65 | a non-negative bet never earns a negative line win |
| WinCalculator.WinNeverNegative | win_calculator.py:56-90 | for a non-negative bet the win is never negative, so credits never go down |
| WinCalculator.LineWinFirstThreeOrderIrrelevant | win_calculator.py:60 | swapping two of the first three reels keeps the line win |
| WinCalculator.BonusFirstThreeOrderIrrelevant | win_calculator.py:72 | swapping two of the first three reels keeps the bonus |
| WinCalculator.FirstThreeOrderIrrelevant | win_calculator.py:45-93 | swapping two of the first three reels keeps the returned win and credits |
| WinCalculator.SameLineWinAndBonus | win_calculator.py:88-90 | the result depends on the spin only through its line win and bonus |

## Left out

- RPC and I/O are left out: `get_utxos`, `broadcast_transaction`, `send_doge` and the configuration/`AuthServiceProxy` setup in cashOut.py, and `create_rpc_connection`, `get_utxos` and `process_transaction` in buyIn.py. They talk to a node. UTXOs, keys and addresses are parameters instead.
- slotGame1.1.py is not part of this model: it is the pygame user interface, sound, threads and wallet listing.
- Floating-point conversions are left out: `int(amount_doge * 1e8)` and the fixed fee in DOGE. Amounts are integer satoshis.
- Planner.DevFeeAmount: the percentages are 0.01, 0.00 and 0.00 as floats in the source. They are modelled as integer basis points with truncation toward zero, so the float product's rounding for very large differentials is not modelled.
- Planner.ConfiguredDevFees: the dev-fee addresses are the placeholder strings of the source.
- Hex plumbing (`bytes.fromhex`, `.hex()`) is left out. Txids and scripts are bytes, so the error `fromhex` raises on malformed hex is not modelled.
- The ECDSA signature is an uninterpreted function of key and digest. Curve arithmetic, DER encoding, low-S normalisation and signing randomness are not modelled, and neither is whether the signature verifies. Base58 digit conversion is likewise uninterpreted.
- Signer.SignTransaction: the source assigns each scriptSig in place and may raise after some inputs are already signed, leaving the caller's dictionary partly updated. The model returns the updated transaction as a new value, and on failure returns an error without the partial update.
- Signer.SignTransaction: `bytes.fromhex(privkey_hex)` is left out; the key is given as bytes.
- CompactSize.VarInt: requires n < 2^64. `struct.pack('<Q', n)` raises above that, and every caller passes a list or byte-string length. The serializer still models that error for the input and output counts and script lengths.
- WinCalculator.WinNeverNegative: holds for non-negative bets only. With a negative bet the source's win can be negative, and the model computes that value too.
- Wire.ParseTxOfEncode: the round trip needs 32-byte txids. The source writes any txid length it is given, and the model does the same.
- The demo blocks under `__main__` and all `print` logging are left out.

## Findings

| source | as written | input that shows it | evidently intended | confidence | as-written member | corrected member |
|---|---|---|---|---|---|---|
| buyIn.py:41 | `wif_to_address` hashes `0x02 ‖ x` as the compressed public key for every key | any key whose public point has an odd y, e.g. the point x = 0, y = 1 | prefix 0x02 for even y and 0x03 for odd y, as `to_string("compressed")` in `sign_transaction` does, so the address pays the key that signs | not executed | Script.WifAddressKeyWrongForOddY | Script.CorrectedAddressPaysSignerKey |
