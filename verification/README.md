# ixy.rs transmit benchmark — a Dafny model

`examples/benchmark.rs` of ixy.rs drives a user-space NIC driver at line rate:
it builds one 42-byte Ethernet/IPv4/UDP header, stamps it onto freshly
allocated packet buffers, pushes batches to the device with a busy-wait
transmit call, counts bytes per iteration, prints a throughput line about
once a second and stops after 50 GB. This project models the three parts of
that file that are pure computation and proves their properties:

- **Header template** (`template.dfy`, with the header codec in `wire.dfy`
  and the byte conversions in `bytes.dfy`): the literal of 42 bytes, its two
  length fields computed from the packet size through truncating `u8`
  casts, and the patch of both hardware addresses. `Wire` gives the bytes
  their field-level meaning (Ethernet II, the IPv4 header of RFC 791
  section 3.1, the UDP header of RFC 768) as a codec proved to round-trip
  both ways, so the template's properties are stated per field as well as
  per byte.
- **Stamping** (`stamp.dfy`): copying the template over the first 42 bytes
  of each buffer of the first allocation, and the batch that is then
  submitted, which also holds the unstamped buffers of the refill.
- **Run accounting** (`run.dfy`): `send_bytes`/`past_send_bytes` as a small
  state machine, one batch of `BATCH_SIZE * PACKET_SIZE` bytes per
  iteration, a report that resets the baseline, and the stop check; a loop
  method proves the run lasts exactly 1,041,667 iterations.
- **Throughput figures** (`throughput.dfy`): the decimal giga/mega split of
  the delta (bits for the bandwidth figure, bytes for the transfer figure).

The constants of the file are in `config.dfy`. The device's hardware
address is a parameter, buffers are byte sequences supplied by the caller,
and the wall clock is a boolean "the interval has elapsed" per iteration.

The header's layout, from the code: Ethernet addresses at 0-11, EtherType at
12-13, IPv4 version/IHL and TOS at 14-15, total length at 16-17,
identification and flags/fragment at 18-21, TTL and protocol at 22-23,
IPv4 header checksum at 24-25, source IP 26-29, destination IP 30-33, ports
34-37, UDP length 38-39, UDP checksum 40-41.

## Model

| member | source | states |
|---|---|---|
| Bytes.BigEndianTruncates | examples/benchmark.rs:47-48 | the high/low byte pair `(x >> 8) as u8`, `(x & 0xFF) as u8`, read back as a big-endian 16-bit field, is `x` modulo 2^16 |
| Bytes.BigEndianExact | examples/benchmark.rs:54-55 | that pair reads back as exactly `x` if and only if `x < 2^16` |
| Wire.DecodeEncode | examples/benchmark.rs:43-56 | reading the fields back from the 42-byte layout of a well-formed header gives the same header |
| Wire.EncodeDecode | examples/benchmark.rs:43-56 | every 42-byte string is the layout of the header read from it, so byte view and field view agree |
| Template.Literal | examples/benchmark.rs:42-57 | the header literal is exactly 42 bytes for every packet size from 34 up (the unsigned subtractions need that) |
| Template.LiteralBytes | examples/benchmark.rs:45-56 | bytes 12-13 are 0x08 0x00, byte 14 is 0x45, bytes 22-23 are 0x40 0x11, bytes 40-41 are 0, and bytes 16-17 and 38-39 hold the packet size less 14 and less 34, modulo 2^16 |
| Template.LiteralFields | examples/benchmark.rs:42-57 | field by field the literal is EtherType IPv4, version 4, IHL 5, TTL 64, protocol 17, header checksum 0, 10.0.0.1 to 10.0.0.2, port 42 to 1337, UDP checksum 0, and the two lengths modulo 2^16 |
| Template.LengthFieldsExact | examples/benchmark.rs:47-55 | the IPv4 total length equals packet size minus 14, and the UDP length packet size minus 34, each if and only if the difference fits in 16 bits |
| Template.PatchMacs | examples/benchmark.rs:59-60 | after the patch bytes 0-5 are the destination address, bytes 6-11 the source address, bytes 12-41 unchanged |
| Template.PatchMacsFields | examples/benchmark.rs:59-60 | the patch changes the two Ethernet addresses and no other header field |
| Template.Build | examples/benchmark.rs:42-60 | the template is 42 bytes; bytes 0-5 are `DST_MAC`, 6-11 the device address, 12-41 the literal's; EtherType, version/IHL, TTL/protocol and zero UDP checksum bytes are in place; the length fields read 1486 and 1466 |
| Template.BuildFields | examples/benchmark.rs:42-60 | field by field the template addresses `DST_MAC` from the device address with exact IPv4 length 1486 and UDP length 1466 |
| Stamp.StampOne | examples/benchmark.rs:82 | stamping keeps a buffer's length, makes its first 42 bytes the template and leaves bytes 42 on untouched; buffers shorter than 42 bytes are refused |
| Stamp.StampOneUnique | examples/benchmark.rs:82 | a buffer has those three properties if and only if it is the stamped buffer |
| Stamp.StampOneLastWins | examples/benchmark.rs:81-83 | stamping over an earlier stamp leaves only the later template, so stamping twice is stamping once |
| Stamp.StampAll | examples/benchmark.rs:81-83 | the stamp loop keeps the number of buffers and each length, sets every header to the template and leaves every payload alone |
| Stamp.Batch | examples/benchmark.rs:79-87 | the submitted batch is the stamped first allocation followed by the refill buffers exactly as allocated |
| Throughput.Split | examples/benchmark.rs:93-96 | for `x / GB` and `(x % GB) / MB`: mega part below 1000 and `whole*GB + mega*MB <= x < whole*GB + (mega+1)*MB` |
| Throughput.SplitUnique | examples/benchmark.rs:93-96 | a figure satisfies that bound if and only if it is the split, so the bound determines the printed values |
| Throughput.Bandwidth | examples/benchmark.rs:93-94 | `gb`, `mb` name the mega-unit that contains `8 * delta` bits |
| Throughput.Transfer | examples/benchmark.rs:95-96 | `gib`, `mib` name the decimal mega-unit that contains `delta` bytes |
| Throughput.ExampleInterval | examples/benchmark.rs:93-99 | a delta of 1,200,000,000 bytes gives gib=1, mib=200, gb=9, mb=600 |
| Run.Step | examples/benchmark.rs:89-107 | one iteration adds exactly one batch to the counter, keeps the baseline at or below it, reports if and only if the interval elapsed (with the delta since the baseline, its figures, and the baseline moved to the counter), otherwise leaves the baseline alone, and stops if and only if the counter reached `MAX_BYTES` |
| Run.StepsSnoc | examples/benchmark.rs:76-108 | running one more iteration after a run of iterations is one `Run.Step` from where that run ended |
| Run.Steps | examples/benchmark.rs:72-73 | over any clock the baseline never passes the counter, so the subtraction never underflows |
| Run.StepsAccounting | examples/benchmark.rs:89 | after k iterations the counter has grown by exactly `48000 * k`, whatever the clock did; the buffers never enter the accounting, so their number does not matter |
| Run.NextReportDelta | examples/benchmark.rs:92-102 | quiet iterations leave the baseline alone, so the next report's delta is the pending bytes plus one batch per iteration since |
| Run.FirstStop | examples/benchmark.rs:105-107 | iteration k is the first whose counter reaches `MAX_BYTES` if and only if k is 1,041,667 |
| Run.ReportsOf | examples/benchmark.rs:92-103 | every line printed over any clock shows the figures of its own delta and covers at least one batch |
| Run.ReportsCount | examples/benchmark.rs:92 | one line is printed per iteration whose interval had elapsed |
| Run.ReportsSnoc | examples/benchmark.rs:92-103 | one more iteration appends the line it prints, if any, to the lines printed so far |
| Run.ReportsConserve | examples/benchmark.rs:89-101 | every byte accounted is in exactly one printed line or still pending since the last one |
| Run.RunLoop | examples/benchmark.rs:72-108 | the run stops after exactly 1,041,667 iterations with 50,000,016,000 bytes counted and no earlier iteration reaching `MAX_BYTES`; its final state and printed lines are what `Run.Steps` and `Run.ReportsOf` give for the clock readings of all iterations; one line per iteration whose interval elapsed, each with the figures `Transfer`/`Bandwidth` of its delta and covering at least one batch; every counted byte is in exactly one line or still pending; `8 *` the counter stays below 2^64 |

## Left out

- `ixy_init`, `get_mac_addr`, `reset_stats`, `read_stats`: device
  initialisation and register access; the device's address is the
  parameter of `Template.Build`.
- `Mempool::allocate`, `alloc_pkt_batch`: library code that is not part of
  this model. Buffers are supplied as byte sequences; the refill is taken
  to append buffers after the stamped ones. Pool capacity and buffer
  ownership are therefore not modelled.
- `tx_batch_busy_wait`: the DMA and busy-wait boundary. The model does not
  claim that every transmitted buffer carries the template (the refill
  buffers are not stamped), nor that the byte count matches what was sent: the
  counter adds a full batch per iteration regardless.
- The IPv4 header checksum is left 0 as written; it is not computed.
- Wall-clock timing: `elapsed` stands for the test that the whole seconds
  since the last report equal exactly 1. The model does not follow a clock,
  so it says nothing about when that test holds.
- Output formatting, logging, argument parsing and the exit on a missing
  argument: I/O.
- `usize` wrap-around is not modelled; `Run.RunLoop` proves the values the
  run reaches, even multiplied by 8, stay below 2^64.
