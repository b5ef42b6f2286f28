# czml-rs encoding layer, modelled in Dafny

The czml crate builds a CZML document in memory and turns it into JSON. A
document (`Czml`) is an append-only list of packets. Each `Packet` is a
record of optional fields (`id`, `delete`, `name`, `parent`, `description`,
`clock`). A `Clock` is a record of optional fields too (`interval`,
`currentTime`, `multiplier`, `range`, `step`). `CzmlString` is a literal
string or a reference to another packet's property. A `TimeInterval` is
written as one ISO 8601 start/end string. `ClockRange` and `ClockStep` are
closed enumerations.

The model produces the JSON value as a tree (`JsonValue.Json`). Objects are
sequences of key/value pairs, so member order is part of the model:

- `wrappers.dfy`: `Option`.
- `json.dfy`: the JSON tree, `Keys`, `Lookup`, and facts about
  subsequences and duplicate-free sequences.
- `serde_fields.dfy`: what serde's derived serialiser does with fields
  marked `skip_serializing_if = "Option::is_none"`. Fields are visited in
  declaration order, `None` fields are dropped, and every other field
  becomes one member. This is `SkipNone` over a declared field list.
- `serde_rename.dfy`: serde's two rename rules used by the crate,
  `camelCase` for struct fields and `SCREAMING_SNAKE_CASE` for enum
  variants, on ASCII identifiers.
- `czml_names.dfy`: the `ClockRange` and `ClockStep` variants, `Clock`'s
  keys, and proofs that each emitted name is the rename of its Rust
  identifier.
- `czml.dfy`: the crate itself (module `Czml`). It defines the records and
  their encode functions, the `Czml` class with `Push`, and two methods
  proved against the encode functions: `Czml.Serialize` (the loop of
  `Czml::serialize`) and `SerializeInterval` (the `+=` steps of
  `TimeInterval::serialize`).
  The crate never parses JSON. `SplitInterval` is the model's own reader of
  an interval string. It serves only to state that the two endpoint texts
  can be recovered.

How each type is written out, following the code:

- `CzmlString` has no serde attributes, so serde uses its default
  externally tagged form. That gives `{"StringValue":{"string":s}}` or
  `{"ReferenceValue":{"reference":r}}`, not a bare `{"string":s}` or
  `{"reference":r}` object.
- `ClockRange` and `ClockStep` carry `#[serde(tag = "type")]`. Each value
  is therefore a one-member object such as `{"type":"LOOP_STOP"}`, not a
  bare string. The name is the variant identifier in SCREAMING_SNAKE_CASE.
- `Clock` renames `current_time` to `currentTime` (`rename_all = "camelCase"`).
  Its other field names have no underscore and are unchanged.
- The `multiplier` is an `f64`. serde_json writes a finite value as a
  number and writes NaN or an infinity as `null`. The model keeps the value
  as a `real` inside `F64.Finite`, with `NaN` and `Infinite` as separate
  cases, and does no float arithmetic.
- Timestamps (chrono's `DateTime<Utc>`) are a `Time` value. Their text
  forms are chrono's code, so they are a parameter
  `TimeFormat(debug, serialize)`. `debug` is the `{:?}` text used for the
  interval endpoints. `serialize` is chrono's own `Serialize`, used for
  `current_time`.

## Model

| member | source | states |
|---|---|---|
| `Czml.Czml.constructor` | src/lib.rs:26-28 | a new document holds no packets |
| `Czml.Czml.Push` | src/lib.rs:30-32 | the packet list grows by one; the last packet is the pushed one; every earlier packet is unchanged |
| `Czml.Czml.Serialize` | src/lib.rs:35-45 | the loop over the packets yields exactly the document's array encoding `EncodeCzml(packets)` |
| `Czml.EncodeCzml` | src/lib.rs:35-45 | the document encodes to an array with one element per packet, and element i is the encoding of packet i (no merging or deduplication) |
| `Czml.EncodeAllPush` | src/lib.rs:30-45 | encoding after a push is the old encoding with the new packet's encoding appended at the end |
| `Czml.DocumentOrder` | src/lib.rs:35-45 | packets P1, P2, P3 encode to `[P1, P2, P3]` in that order, whatever their ids |
| `Czml.PacketKeyOrder` | src/lib.rs:48-62 | the keys of an encoded packet are a subsequence of `id, delete, name, parent, description, clock`, with no key twice |
| `Czml.PacketFieldValues` | src/lib.rs:48-62 | each packet key is present exactly when its field is `Some`, and maps to that field's encoding |
| `Czml.PacketIdNameClock` | src/lib.rs:48-62 | a packet with only `id`, `name` and `clock` set encodes to exactly those three members, in declaration order |
| `Czml.PacketOnlyId` | src/lib.rs:48-62 | a packet with only `id` set encodes to exactly `{"id": id}` |
| `Czml.ClockAllSet` | src/lib.rs:70-83 | a clock with every field set encodes to the five members `interval, currentTime, multiplier, range, step`, in that order |
| `CzmlNames.ClockKeysRenamed` | src/lib.rs:70-83 | each clock key is the camelCase of the Rust field name at the same position (`current_time` becomes `currentTime`, the others are unchanged) |
| `Czml.ClockKeyOrder` | src/lib.rs:70-83 | the keys of an encoded clock are a subsequence of `interval, currentTime, multiplier, range, step`, with no key twice |
| `Czml.ClockFieldValues` | src/lib.rs:70-83 | each clock key is present exactly when its field is `Some`, with that field's encoding; `current_time` appears only as `currentTime` |
| `Czml.EncodeCzmlString` | src/lib.rs:64-68 | a `CzmlString` encodes to a one-key object tagged with its variant name, whose inner one-key object has `string` for a literal and `reference` for a reference, never the other key |
| `Czml.CzmlStringInjective` | src/lib.rs:64-68 | two `CzmlString` values with the same encoding are equal |
| `Czml.SerializeInterval` | src/lib.rs:92-103 | the appended string is the start text, then '/', then the stop text |
| `Czml.IntervalRoundTrip` | src/lib.rs:97-100 | if neither endpoint text contains '/', splitting the interval string at its '/' gives back both texts |
| `Czml.SplitIntervalSound` | src/lib.rs:97-100 | any successful split is a start and a stop text without '/', joined by one '/' |
| `Czml.IntervalText` | src/lib.rs:97-100 | the interval string holds exactly one '/' if and only if neither endpoint text holds one |
| `Czml.IntervalTextInjective` | src/lib.rs:97-100 | two intervals with slash-free endpoint texts give the same string only when both endpoint texts agree |
| `Czml.EncodeClockRange` | src/lib.rs:105-112 | a clock range encodes to the one-member object `{"type": NAME}`, NAME being the SCREAMING_SNAKE_CASE of the variant identifier |
| `CzmlNames.ClockRangeRenamed` | src/lib.rs:105-112 | each range name (`UNBOUNDED`, `CLAMPED`, `LOOP_STOP`) is the SCREAMING_SNAKE_CASE of its variant identifier |
| `Czml.ClockRangeInjective` | src/lib.rs:105-112 | distinct clock ranges encode differently |
| `Czml.EncodeClockStep` | src/lib.rs:114-121 | a clock step encodes to the one-member object `{"type": NAME}`, NAME being the SCREAMING_SNAKE_CASE of the variant identifier |
| `CzmlNames.ClockStepRenamed` | src/lib.rs:114-121 | each step name (`TICK_DEPENDENT`, `SYSTEM_CLOCK_MULTIPLIER`, `SYSTEM_CLOCK`) is the SCREAMING_SNAKE_CASE of its variant identifier |
| `Czml.ClockStepInjective` | src/lib.rs:114-121 | distinct clock steps encode differently |
| `Czml.BasicExample` | examples/basic.rs:18-40 | the sample document (id "1", name "test", a full clock) encodes to the expected tree, with `delete`, `parent` and `description` absent |
| `SerdeFields.SkipNoneAppend` | src/lib.rs:50-61 | emitting two field lists one after the other gives the members of their concatenation |
| `SerdeFields.SkipNoneKeys` | src/lib.rs:50-61 | the emitted keys keep declaration order and are all declared names |
| `SerdeFields.SkipNoneLookup` | src/lib.rs:50-61 | with distinct field names, reading a field's key back gives that field's value, and nothing for a `None` field |
| `SerdeFields.SkipNoneUndeclared` | src/lib.rs:50-61 | a name that is not a declared field never appears as a key |

## Left out

- chrono's text forms of a timestamp (`{:?}` at src/lib.rs:98,100 and chrono's `Serialize` for `current_time`) are foreign code. They are the `TimeFormat` parameter, so nothing is proved about their content.
- The serde/serde_json writer: the `Serializer` protocol, `Result`/`S::Error` propagation, the length hint given to `serialize_seq`, and the bytes written. The model returns the JSON tree the serialisers describe.
- Float behaviour of `multiplier` beyond finite versus NaN/infinite. There is no rounding or number formatting.
- Rust ownership: `push` moves the packet into the vector. The model's packets are values, so there is no aliasing to model.
- examples/basic.rs prints the document. Only the document it builds is modelled, as `BasicExample`.
- Constant-or-sampled property values, interpolation bundles, and the position, orientation, viewFrom, billboard, polyline, availability, version and properties fields do not exist in src/lib.rs, so they are not modelled.
- serde's rename rules are modelled on ASCII letters and '_' only, which covers every identifier in src/lib.rs. Other characters are not modelled.
