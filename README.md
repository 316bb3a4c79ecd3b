# ATSC 3.0 signalling pipeline of hdhomerun_tui

This project models the ATSC 3.0 part of `hdhomerun_tui`, a curses front end
for HDHomeRun network tuners, and proves properties of the model. The model
covers:

- the base64 decoding of the tuner's `l1detail` text (`b64_decoded_size`,
  `b64_isvalidchar`, `b64_decode`);
- the static 4096-bit buffer and `get_bits`;
- `parse_l1_data`, the walk over the L1-Basic and L1-Detail signalling of
  ATSC A/322 (sections 9.2 and 9.3) that fills the detail screen's display
  list;
- the modulation/code-rate SNR table with `normalize_mod_str` and
  `get_snr_for_modcod`;
- the status mini-parsers `parse_status_value` and `parse_db_value`, with
  the `strtol` they rely on;
- the PLP detail screen's assembly of its display list from the tuner's
  `plpinfo` and `streaminfo` text, and the L1-Detail block appended after
  it;
- from the 0.8.5 macOS build, the arrow-key channel step and the rewrite of
  a typed PLP list ("0,1" becomes "0+1").

Modules, one per file:

- `Text`: C string helpers (`strstr`, `strchr`, `strtok` on "\n", `%ld`).
- `CNumber`: `strtol`, including whitespace, sign, `0x`/`0` prefixes and saturation.
- `Status`: the two status parsers.
- `Base64`: the decoder, proved against the standard encoder of section 4 of RFC 4648.
- `Bits`: the bit buffer and `get_bits`.
- `Report`: the display list and `add_line`.
- `L1Fields`: the names printed for coded fields.
- `L1Spec`: `parse_l1_data` as pure functions of the buffer, with the outline
  of the headings it prints: one "Subframe #i:" per subframe, L1B_num_subframes + 1
  of them, each followed by "PLP #0:" to "PLP #n:" for its L1D_num_plp = n
  (`L1Spec.SubframesOutline`, `L1Spec.Subframe`, `L1Spec.SubframePlpField`),
  and L1D_crc where L1B_L1_Detail_size_bytes puts it (`L1Spec.ParseTrailer`).
- `L1Parser`: `parse_l1_data` as the program runs it, proved equal to `L1Spec`.
- `ModCod`: the SNR table, normaliser and lookup.
- `PlpReport`: the PLP screen.
- `Tuning`: the channel step and the PLP list rewrite.

Lines on the display are records that say what a line shows (`Field`,
`Heading`, `IdLine`, `SnrLine`, ...) rather than formatted text. SNR values
are hundredths of a dB.

## Model

| member | source | states |
|---|---|---|
| Text.Find | hdhomerun_tui.c:2439-2440 | `strstr`: the result is an occurrence of the key and no earlier index holds one; None exactly when the key never occurs |
| Text.FindChar | hdhomerun_tui.c:2446 | `strchr`: the index holds the character and none before it does; None when the character is absent |
| Text.Tokens | hdhomerun_tui.c:2434 | the pieces `strtok(s, "\n")` yields are non-empty and hold no line break |
| Text.TokensCoverText | hdhomerun_tui.c:2434 | concatenating the `strtok` pieces gives the text with every line break removed: nothing lost, duplicated or reordered |
| Text.TokensOfJoinLines | hdhomerun_tui.c:2434 | splitting lines joined by line breaks with `strtok(s, "\n")` gives back exactly those lines, in order, when none is empty or holds a line break |
| Text.TokensSkipBlank | hdhomerun_tui.c:2434 | line breaks before the text produce no piece: `strtok` skips them |
| CNumber.StrToL | hdhomerun_tui.c:343 | `strtol` returns a value within the range of `long` |
| CNumber.DecimalRoundTrip | hdhomerun_tui.c:328 | a number printed in decimal and followed by a non-digit reads back as itself in base 10 |
| CNumber.AutoBaseRoundTrip | hdhomerun_tui.c:343 | the same holds with base detection (base 0), as `parse_status_value` uses it |
| CNumber.AccumulateDigits | hdhomerun_tui.c:343 | `strtol`'s digit loop over digits h of the base shifts what it had by \|h\| places and adds h's positional value |
| CNumber.HexRead | hdhomerun_tui.c:343 | with base detection, "0x" and hex digits, then a non-hex character, read as the hex digits' value |
| CNumber.OctalRead | hdhomerun_tui.c:343 | with base detection, a leading "0" and octal digits, then a non-octal character, read in octal |
| CNumber.NoDigitsRead | hdhomerun_tui.c:343 | text that starts with no digit, sign or space reads as 0 |
| Status.ParseStatusValue | hdhomerun_tui.c:339-346 | -999 when the key does not occur; otherwise a `long` |
| Status.ParseDbValue | hdhomerun_tui.c:323-332 | -999 when the key does not occur or no '(' follows it; otherwise a `long` |
| Status.StatusValueRoundTrip | hdhomerun_tui.c:339-346 | any text pre in which the key does not occur, then "key" + decimal(n) + a non-number tail, parses back to n |
| Status.StatusValueAt | hdhomerun_tui.c:340-344 | wherever the key is first found, the result is `strtol` with base detection of the text right after it |
| Status.FoundAfter | hdhomerun_tui.c:341 | when the key does not occur in pre + key before pre ends, `strstr` finds it right after pre, and the text after it is what followed |
| Status.StatusHexValue | hdhomerun_tui.c:339-346 | a key first found after pre and followed by "0x" and hex digits gives their value |
| Status.StatusOctalValue | hdhomerun_tui.c:339-346 | a key first found after pre and followed by "0" and octal digits gives their octal value |
| Status.StatusNoDigits | hdhomerun_tui.c:339-346 | a key first found after pre and followed by no number gives 0, not -999 |
| Status.DbValueRoundTrip | hdhomerun_tui.c:323-332 | any text pre in which the key does not occur, then "key" + text without '(' + "(" + decimal(n) + unit, parses back to n |
| Status.DbValueAt | hdhomerun_tui.c:324-329 | with the key first found at i and the first '(' from there at i + k, the result is the decimal number after that '(' |
| Status.SentinelCollision | hdhomerun_tui.c:339-346 | a status that holds the key with value -999 is indistinguishable from a missing key |
| Status.KeyMatchesInsideLongerKey | hdhomerun_tui.c:341 | the key search matches inside a longer key ("se=" inside "base=") |
| Status.DbValueExample | hdhomerun_tui.c:321-332 | "ss=100(-35dBm)" with key "ss=" gives -35 |
| Status.MissingKeyExample | hdhomerun_tui.c:345 | an absent key gives -999 |
| Status.StatusValueExample | hdhomerun_tui.c:339-346 | "bps=18234567 pps=12345" with key "bps=" gives 18234567 |
| Status.StatusHexExample | hdhomerun_tui.c:339-346 | "plp=0 bsid=0x1a" with key "bsid=" gives 26 |
| Status.StatusOctalExample | hdhomerun_tui.c:339-346 | "te=017 " with key "te=" gives 15 |
| Status.StatusNoDigitsExample | hdhomerun_tui.c:339-346 | "lock=none" with key "lock=" gives 0 |
| Status.DbValueLaterExample | hdhomerun_tui.c:321-332 | "ch=8 ss=100(-35dBm)" with key "ss=" gives -35 |
| Base64.TableIsAlphabetInverse | hdhomerun_tui.c:1984-1989 | every entry of `b64invs` is the alphabet index of character entry + 43, or -1 for a non-alphabet character |
| Base64.Sextet | hdhomerun_tui.c:2011-2017 | a valid character other than '=' decodes to a sextet below 64 |
| Base64.SextetIsTableEntry | hdhomerun_tui.c:2033-2036 | the sextet of a valid character is the `b64invs` entry the decoder indexes, and the index is in range |
| Base64.TrailingPads | hdhomerun_tui.c:1999-2005 | the count of trailing '=' characters, and the character before them is not '=' |
| Base64.DecodedSizeOf | hdhomerun_tui.c:1991-2009 | the backwards scan returns three bytes per four characters less one per trailing '=', in `size_t` arithmetic |
| Base64.AsWrittenWritesPastEnd | hdhomerun_tui.c:2019-2046 | as written, three or more trailing '=' pass every check, yet a byte is stored at or past `b64_decoded_size` |
| Base64.AsWrittenExample | hdhomerun_tui.c:2019-2046 | "A===" is accepted into a 0-byte buffer and byte 0 is stored |
| Base64.WritesFit | hdhomerun_tui.c:2028-2043 | with at most two trailing '=', every stored byte lies below the decoded size |
| Base64.DecodeQuartets | hdhomerun_tui.c:2034-2043 | the decoding loop leaves each quartet's bytes in place and keeps every byte no quartet stores |
| Base64.Decode | hdhomerun_tui.c:2019-2046 | accepts exactly when the input is a whole number of valid quartets with at most two trailing '=' that fit the buffer; on accept the buffer holds the decoded bytes, otherwise it is untouched |
| Base64.Encode | hdhomerun_tui.c:2019-2046 | the reference encoder yields four characters per started group of three bytes |
| Base64.EncodePads | hdhomerun_tui.c:1999-2005 | an encoding ends in (3 - n mod 3) mod 3 '=' characters |
| Base64.AcceptsEncode | hdhomerun_tui.c:2028-2032 | every encoding of n bytes is valid, has decoded size n and passes the decoder's checks |
| Base64.DecodeEncode | hdhomerun_tui.c:2019-2046 | decoding the encoding of any byte string into a buffer of its length gives the byte string back |
| Bits.Read | hdhomerun_tui.c:2056-2068 | `get_bits(n)` is the value of the n bits at the index, which moves by n; a field running past the buffer reads 0 and leaves the index, both stated as separate cases |
| Bits.ValueAppend | hdhomerun_tui.c:2063-2065 | a field read in two parts has the first part as its high digits |
| Bits.ShiftInBit | hdhomerun_tui.c:2064 | each step of the loop extends the field by one digit |
| Bits.LowBitsValue | hdhomerun_tui.c:2112-2114 | the eight bits stored for a byte read back as that byte |
| Bits.ByteRoundTrip | hdhomerun_tui.c:2110-2116 | a byte-aligned 8-bit field of the loaded buffer reads back as its byte |
| Bits.BitReader.constructor | hdhomerun_tui.c:2052-2053 | the static buffer starts zeroed with index 0 |
| Bits.BitReader.Load | hdhomerun_tui.c:2109-2116 | resets the index and leaves the buffer equal to `Fill` of its old contents |
| Bits.BitReader.GetBits | hdhomerun_tui.c:2056-2068 | returns the value and moves the index as `Read` says |
| Bits.AsWrittenResult | hdhomerun_tui.c:2056 | returning a 32-bit field as a C `int` makes it negative exactly when its top bit is set, congruent modulo 2^32 |
| Bits.AsWrittenSignFlip | hdhomerun_tui.c:2187 | a 32-bit field (a CRC, `L1D_time_sec`) with its first bit set comes back negative as written |
| Bits.AsWrittenExample | hdhomerun_tui.c:2370 | a CRC of 0x80000000 is reported as -2147483648 as written and as 2147483648 by the model |
| Report.KeptPrefix | hdhomerun_tui.c:2101-2107 | the display shows what it showed, then the lines offered in order, up to its capacity |
| Report.KeptAdd | hdhomerun_tui.c:2102-2107 | one more `add_line` appends the line exactly while the display has room |
| Report.KeptThen | hdhomerun_tui.c:2101-2107 | offering two batches in turn is offering their concatenation |
| Report.Display.Add | hdhomerun_tui.c:2102-2107 | `add_line` stores the line in the next slot only while fewer than `max_lines` are shown |
| Report.Display.Push | hdhomerun_tui.c:2416 | `display_lines[line_count++] = x` appends x (callers guarantee room) |
| L1Fields.Lookup | hdhomerun_tui.c:2253-2262 | a code names its table entry; codes past the table print "Reserved" |
| L1Fields.TimeInfo | hdhomerun_tui.c:2123-2129 | every 2-bit time-info code has a name |
| L1Fields.Papr | hdhomerun_tui.c:2131-2137 | every 2-bit PAPR code has a name |
| L1Fields.FftSize | hdhomerun_tui.c:2158 | "Reserved" exactly for code 3 and above |
| L1Fields.GuardInterval | hdhomerun_tui.c:2159-2175 | "Reserved (n)" exactly for codes 0 and 13 and above |
| L1Fields.Layer | hdhomerun_tui.c:2249 | "Reserved" exactly for codes 2 and above |
| L1Fields.Scrambler | hdhomerun_tui.c:2252 | "Reserved" for every code but 0 |
| L1Fields.FecType | hdhomerun_tui.c:2253-2262 | "Reserved" exactly for codes above 5 |
| L1Fields.Modulation | hdhomerun_tui.c:2264-2273 | "Reserved" exactly for codes above 5 |
| L1Fields.CodeRate | hdhomerun_tui.c:2274-2289 | "Reserved" exactly for codes above 11 |
| L1Fields.TiMode | hdhomerun_tui.c:2291-2297 | "Reserved" exactly for code 3 |
| L1Spec.Put | hdhomerun_tui.c:2102-2107 | `add_line` appends its line after the ones before, and the outline of headings grows by that line exactly when it is a heading |
| L1Spec.NumLine | hdhomerun_tui.c:2192-2193 | a field read by `get_bits(n)` and printed as "NAME: %ld" holds the n bits at the index, which moves past them when they fit, and adds one line |
| L1Spec.Get | hdhomerun_tui.c:2056-2068 | a read gives a value below 2^n and moves the index by n when the field fits, else not at all |
| L1Spec.BasicFrame | hdhomerun_tui.c:2120-2138 | L1B_version to the frame-length mode take 34 bits, and the time-info code is below 4 |
| L1Spec.BasicFlags | hdhomerun_tui.c:2120-2138 | L1B_version to L1B_frame_length_mode take 11 bits, and the time-info code is below 4 |
| L1Spec.FrameLength | hdhomerun_tui.c:2139-2147 | both frame-length modes take 23 bits and print three lines |
| L1Spec.BasicDetail | hdhomerun_tui.c:2148-2155 | L1B_num_subframes to L1B_L1_Detail_total_cells take 53 bits; the subframe count returned is the first 8 of them, and the detail size returned is the 13 bits at offset 16, L1B_L1_Detail_size_bytes |
| L1Spec.BasicFirstSub | hdhomerun_tui.c:2156-2180 | the first subframe's parameters take 33 bits |
| L1Spec.BasicReserved | hdhomerun_tui.c:2181-2186 | both version forks take 48 bits; before version 1 nothing is printed and the mixed-MIMO flag is 0 |
| L1Spec.Basic | hdhomerun_tui.c:2118-2187 | L1-Basic is 200 bits whatever path its fields take, and prints no heading |
| L1Spec.BasicNumSubframes | hdhomerun_tui.c:2148 | `l1b_num_subframes` is the 8 bits that follow the first 34 of L1-Basic |
| L1Spec.BasicDetailSize | hdhomerun_tui.c:2152 | `l1b_l1_detail_size_bytes` is the 13 bits at offset 50 of L1-Basic |
| L1Spec.StartOutline | hdhomerun_tui.c:2118-2207 | when the subframe loop starts, its bound is the 8 bits at offset 34 and no subframe heading has been printed |
| L1Spec.BondedBsids | hdhomerun_tui.c:2194-2197 | each bonded BSID takes 19 bits and prints one line |
| L1Spec.DetailHead | hdhomerun_tui.c:2192-2207 | L1D_version is the 4 bits at the index and L1D_num_rf the next 3; the head then takes 19 bits per bonded BSID and the time fields' width |
| L1Spec.TimeFields | hdhomerun_tui.c:2198-2207 | the time fields take 0 bits for time-info code 0, and 42, 52 or 62 bits for codes 1, 2 and 3 |
| L1Spec.PlpHead | hdhomerun_tui.c:2247-2252 | L1D_plp_id to the scrambler type take 59 bits, and the layer returned is the 2-bit L1D_plp_layer at offset 7 |
| L1Spec.PlpFec | hdhomerun_tui.c:2253-2290 | modulation and code rate are read only for a FEC type up to 5; otherwise `l1d_plp_mod` keeps the previous PLP's value |
| L1Spec.PlpTi | hdhomerun_tui.c:2291-2299 | the TI mode is the 2-bit field read, followed by 15 bits of FEC block start for mode 0, 22 for mode 1 and none otherwise |
| L1Spec.BondedRfIds | hdhomerun_tui.c:2304-2306 | each bonded RF id takes 3 bits and prints one line |
| L1Spec.PlpBonding | hdhomerun_tui.c:2300-2308 | the bonding fields are absent when L1D_num_rf is 0 |
| L1Spec.PlpMimo | hdhomerun_tui.c:2309-2313 | three MIMO flags in a MIMO subframe, none otherwise |
| L1Spec.HtiFecBlocks | hdhomerun_tui.c:2333-2339 | each per-block FEC count takes 12 bits and prints one line |
| L1Spec.Hti | hdhomerun_tui.c:2329-2341 | the HTI fields, with one FEC block count or one per TI block by the inter-subframe flag |
| L1Spec.HtiFirstLine | hdhomerun_tui.c:2329-2330 | the first HTI line is L1D_plp_HTI_inter_subframe with the bit at the index, after what was printed before |
| L1Spec.PlpType | hdhomerun_tui.c:2315-2321 | the PLP type takes 1 bit and one line, or 39 bits and three lines when dispersed; earlier lines stay |
| L1Spec.ExtendedFlag | hdhomerun_tui.c:2322-2325 | L1D_plp_TI_extended_interleaving is read (one bit, one line) when the TI mode is CTI or HTI and `l1d_plp_mod` is 0, and nothing happens otherwise |
| L1Spec.Cti | hdhomerun_tui.c:2326-2328 | the CTI fields take 14 bits: depth (3) then start row (11) |
| L1Spec.InterleaveCti | hdhomerun_tui.c:2322-2328 | in CTI mode the interleaving fields end 14 bits after the flag, which is present exactly when `l1d_plp_mod` is 0; the first line is the flag, else the CTI depth |
| L1Spec.InterleaveHti | hdhomerun_tui.c:2322-2341 | in HTI mode they end 18 bits plus 12 per FEC block count after the flag, present exactly when `l1d_plp_mod` is 0; the first line is the flag, else the HTI inter-subframe bit |
| L1Spec.PlpInterleaveLayout | hdhomerun_tui.c:2322-2341 | the extended-interleaving flag is read exactly when the TI mode is CTI or HTI and `l1d_plp_mod` is 0; the index after the CTI or HTI fields; no field for any other TI mode |
| L1Spec.PlpInterleave | hdhomerun_tui.c:2322-2341 | the interleaving fields keep `l1d_plp_mod`, `l1d_num_plp` and the outline |
| L1Spec.PlpCore | hdhomerun_tui.c:2314-2341 | the core-layer fields keep `l1d_plp_mod`, `l1d_num_plp` and the outline |
| L1Spec.PlpCoreEnd | hdhomerun_tui.c:2314-2341 | the core-layer fields end where the field widths say (`CoreEnd`): PLP type and subslices, the gated flag, the CTI or HTI fields |
| L1Spec.PlpCoreNext | hdhomerun_tui.c:2314-2341 | after the PLP type lines comes the extended-interleaving flag exactly when the gate holds, else the first CTI or HTI field, and nothing in other TI modes |
| L1Spec.PlpLayer | hdhomerun_tui.c:2314-2344 | a non-core layer reads only its 5-bit injection level |
| L1Spec.Plp | hdhomerun_tui.c:2246-2344 | one PLP prints exactly one heading, "PLP #j:", and keeps `l1d_num_plp` |
| L1Spec.Plps | hdhomerun_tui.c:2245-2345 | the PLP loop for j..n prints exactly the headings "PLP #j:" to "PLP #n:", in order, and leaves `l1d_num_plp` unchanged |
| L1Spec.PlpMarksAre | hdhomerun_tui.c:2245-2246 | those headings are n + 1 - j lines, the k-th numbered j + k |
| L1Spec.SubframeHead | hdhomerun_tui.c:2209-2236 | a subframe's head prints exactly one heading, "Subframe #i:", and keeps `l1d_plp_mod` and `l1d_num_plp` |
| L1Spec.Subframe | hdhomerun_tui.c:2209-2345 | one subframe prints the heading "Subframe #i:", then exactly the headings "PLP #0:" to "PLP #n:" for the `l1d_num_plp` = n it leaves |
| L1Spec.SubframePlpField | hdhomerun_tui.c:2208-2245 | the n a subframe leaves and walks its PLPs by is its 6-bit L1D_num_plp field, found after the 33 parameter bits (later subframes), the multiplex bit (several subframes), the interleaver bit and the 13 SBS bits (when SBS is on) |
| L1Spec.SubframeHeadLayout | hdhomerun_tui.c:2209-2236 | a later subframe reads 33 parameter bits, MIMO from the first and SBS from the last two; subframe 0 reads none and takes them from L1-Basic |
| L1Spec.SubframeParamsFlags | hdhomerun_tui.c:2210-2236 | L1D_mimo is the first of the 33 bits, L1D_sbs_first and L1D_sbs_last the last two |
| L1Spec.SubframeStep | hdhomerun_tui.c:2208-2345 | one pass of the subframe loop adds exactly one "Subframe #" heading; its PLP headings add none |
| L1Spec.Subframes | hdhomerun_tui.c:2208-2346 | the subframe loop keeps the headings printed before it, and the first it adds is "Subframe #i:" |
| L1Spec.SubframesOutline | hdhomerun_tui.c:2208-2346 | subframes i to L1B_num_subframes print L1B_num_subframes + 1 - i "Subframe #" headings |
| L1Spec.SubframeParams | hdhomerun_tui.c:2211-2235 | a later subframe's parameters take 33 bits |
| L1Spec.SubframePlpCount | hdhomerun_tui.c:2237-2244 | `l1d_num_plp` becomes the 6-bit field after the multiplex bit (several subframes), the interleaver bit and the 13 SBS bits (SBS on), the index moves past it, the last line printed is L1D_num_plp with that count, and `l1d_plp_mod` is kept |
| L1Spec.NumPlp | hdhomerun_tui.c:2244 | `l1d_num_plp` is the 6 bits at the index, printed as one L1D_num_plp line |
| L1Spec.PlpMimoFlags | hdhomerun_tui.c:2356-2363 | the second pass's per-PLP loop keeps `l1d_num_plp` |
| L1Spec.PlpMimoKeeps | hdhomerun_tui.c:2358-2361 | a PLP's three MIMO flags are plain field lines: they add no "L1D_plp_mimo" line and no mixed flag |
| L1Spec.PlpMimoFlagsPlps | hdhomerun_tui.c:2356-2363 | the per-PLP loop prints one "PLP #j L1D_plp_mimo" line for each of PLPs j..n, in order, and no mixed flag |
| L1Spec.MixedFlag | hdhomerun_tui.c:2352-2355 | subframe i > 0 reads its mixed flag and prints one "L1D_mimo_mixed" line; subframe 0 takes L1B_first_sub_mimo_mixed and prints nothing |
| L1Spec.MimoMixed | hdhomerun_tui.c:2350-2366 | the second pass keeps `l1d_num_plp` and the heading outline |
| L1Spec.MimoMixedPlps | hdhomerun_tui.c:2350-2366 | every mixed subframe (subframe 0 when L1B_first_sub_mimo_mixed is 1, a later one when it prints "L1D_mimo_mixed: 1") prints "L1D_plp_mimo" lines for exactly PLPs 0..`l1d_num_plp`, the count the first pass's last subframe left; the other subframes print none |
| L1Spec.DetailTail | hdhomerun_tui.c:2347-2366 | L1D_version 0 reads nothing, 1 reads and prints only the 16-bit L1D_bsid, and `l1d_num_plp` and the outline are kept |
| L1Spec.DetailTailPlps | hdhomerun_tui.c:2347-2366 | below L1D_version 2 no "L1D_plp_mimo" line is printed; from 2, each mixed subframe prints them for PLPs 0..`l1d_num_plp` |
| L1Spec.Trailer | hdhomerun_tui.c:2367-2370 | when the fields fall short of 8 * size - 32 bits after bit 200, the index moves to bit 200 + 8 * size - 32 unless that is past the buffer; the CRC is the 32 bits at the index, or 0 when they run past the end |
| L1Spec.TrailerPastEnd | hdhomerun_tui.c:2367-2370 | a size of 489 with the fields ending at bit 1000 moves the index to 4080, and the CRC reads 0 |
| L1Spec.TrailerSkipRefused | hdhomerun_tui.c:2367-2370 | a size of 492 or more refuses the skip, and the CRC is read where the fields ended |
| L1Spec.Start | hdhomerun_tui.c:2118-2207 | the detail size is the 13 bits at offset 50, L1D_version the 4 bits at 200 and L1D_num_rf the 3 at 204; the subframes start at 207 + 19 * num_rf + the time fields' width |
| L1Spec.Prologue | hdhomerun_tui.c:2076-2366 | the detail size it hands on is the 13 bits at offset 50, and the headings printed before the subframes stay |
| L1Spec.ParseTrailer | hdhomerun_tui.c:2367-2370 | the parse ends with one L1D_crc line, read where the skip by the 13-bit L1B_L1_Detail_size_bytes at offset 50 puts it |
| L1Spec.ParseOutline | hdhomerun_tui.c:2076-2371 | the parse prints L1B_num_subframes + 1 "Subframe #" headings, L1B_num_subframes being the 8 bits at offset 34 of the buffer |
| L1Parser.Decoder.Get | hdhomerun_tui.c:2056-2068 | `get_bits` moves the decoder as `L1Spec.Get` does |
| L1Parser.Decoder.Add | hdhomerun_tui.c:2102-2107 | `add_line` offers the line to the display |
| L1Parser.Decoder.Num | hdhomerun_tui.c:2120 | a read followed by its `%ld` line |
| L1Parser.Decoder.BasicFrame | hdhomerun_tui.c:2120-2138 | leaves the decoder where `L1Spec.BasicFrame` says |
| L1Parser.Decoder.BasicFlags | hdhomerun_tui.c:2120-2138 | leaves the decoder where `L1Spec.BasicFlags` says |
| L1Parser.Decoder.FrameLength | hdhomerun_tui.c:2139-2147 | leaves the decoder where `L1Spec.FrameLength` says |
| L1Parser.Decoder.BasicDetail | hdhomerun_tui.c:2148-2155 | leaves the decoder where `L1Spec.BasicDetail` says |
| L1Parser.Decoder.BasicFirstSub | hdhomerun_tui.c:2156-2180 | leaves the decoder where `L1Spec.BasicFirstSub` says |
| L1Parser.Decoder.BasicReserved | hdhomerun_tui.c:2181-2186 | leaves the decoder where `L1Spec.BasicReserved` says |
| L1Parser.Decoder.Basic | hdhomerun_tui.c:2118-2187 | leaves the decoder where `L1Spec.Basic` says |
| L1Parser.Decoder.DetailHead | hdhomerun_tui.c:2192-2207 | leaves the decoder where `L1Spec.DetailHead` says, looping over the bonded BSIDs |
| L1Parser.Decoder.TimeFields | hdhomerun_tui.c:2198-2207 | leaves the decoder where `L1Spec.TimeFields` says |
| L1Parser.Decoder.PlpHead | hdhomerun_tui.c:2247-2252 | leaves the decoder where `L1Spec.PlpHead` says |
| L1Parser.Decoder.PlpFec | hdhomerun_tui.c:2253-2290 | leaves the decoder where `L1Spec.PlpFec` says |
| L1Parser.Decoder.PlpTi | hdhomerun_tui.c:2291-2299 | leaves the decoder where `L1Spec.PlpTi` says |
| L1Parser.Decoder.PlpBonding | hdhomerun_tui.c:2300-2308 | leaves the decoder where `L1Spec.PlpBonding` says, looping over the bonded RF ids |
| L1Parser.Decoder.PlpMimo | hdhomerun_tui.c:2309-2313 | leaves the decoder where `L1Spec.PlpMimo` says |
| L1Parser.Decoder.Hti | hdhomerun_tui.c:2329-2341 | leaves the decoder where `L1Spec.Hti` says, looping over the TI blocks |
| L1Parser.Decoder.PlpCore | hdhomerun_tui.c:2314-2341 | leaves the decoder where `L1Spec.PlpCore` says |
| L1Parser.Decoder.PlpLayer | hdhomerun_tui.c:2314-2344 | leaves the decoder where `L1Spec.PlpLayer` says |
| L1Parser.Decoder.Plp | hdhomerun_tui.c:2246-2344 | leaves the decoder where `L1Spec.Plp` says |
| L1Parser.Decoder.Plps | hdhomerun_tui.c:2245-2345 | the PLP loop leaves the decoder where `L1Spec.Plps` says |
| L1Parser.Decoder.SubframeParams | hdhomerun_tui.c:2211-2235 | leaves the decoder where `L1Spec.SubframeParams` says |
| L1Parser.Decoder.SubframeHead | hdhomerun_tui.c:2209-2236 | leaves the decoder where `L1Spec.SubframeHead` says |
| L1Parser.Decoder.SubframePlpCount | hdhomerun_tui.c:2237-2244 | leaves the decoder where `L1Spec.SubframePlpCount` says |
| L1Parser.Decoder.Subframe | hdhomerun_tui.c:2209-2345 | leaves the decoder where `L1Spec.Subframe` says |
| L1Parser.Decoder.Subframes | hdhomerun_tui.c:2208-2346 | the subframe loop leaves the decoder where `L1Spec.Subframes` says |
| L1Parser.Decoder.PlpMimoFlags | hdhomerun_tui.c:2356-2363 | leaves the decoder where `L1Spec.PlpMimoFlags` says |
| L1Parser.Decoder.MimoMixed | hdhomerun_tui.c:2350-2366 | leaves the decoder where `L1Spec.MimoMixed` says |
| L1Parser.Decoder.DetailTail | hdhomerun_tui.c:2347-2366 | leaves the decoder where `L1Spec.DetailTail` says |
| L1Parser.Decoder.Trailer | hdhomerun_tui.c:2367-2370 | leaves the decoder where `L1Spec.Trailer` says |
| L1Parser.Decoder.Prologue | hdhomerun_tui.c:2118-2366 | leaves the decoder where `L1Spec.Prologue` says |
| L1Parser.Decoder.Run | hdhomerun_tui.c:2118-2370 | from index 0 and no lines, ends in the state `L1Spec.Parse` computes |
| L1Parser.ParseL1Data | hdhomerun_tui.c:2076-2371 | the buffer holds `Fill` of the data, the index ends where `L1Spec.Parse` does, and the display shows its old lines followed by the parse's lines up to its capacity |
| ModCod.LookupFrom | hdhomerun_tui.c:217-224 | the scan returns the first matching row at or after i, or None when no later row matches |
| ModCod.ModulationNamesDistinct | hdhomerun_tui.c:146-185 | the six modulation names are pairwise different |
| ModCod.CodeRateNamesDistinct | hdhomerun_tui.c:146-185 | the twelve code-rate names are pairwise different |
| ModCod.LookupNames | hdhomerun_tui.c:146-224 | the lookup of modulation m and code rate c finds row 12m + c of the table |
| ModCod.LookupFound | hdhomerun_tui.c:217-224 | a row is found exactly when both names are in the table, and the row found carries those names |
| ModCod.LookupExample | hdhomerun_tui.c:149 | QPSK 7/15 needs 0.30 to 2.30 dB |
| ModCod.Normalized | hdhomerun_tui.c:190-210 | the result is at most 14 characters long |
| ModCod.NormalizeModStr | hdhomerun_tui.c:190-210 | the loop computes `Normalized` of its input |
| ModCod.OthersShape | hdhomerun_tui.c:199 | the non-digit part holds only upper-cased non-digits |
| ModCod.DigitsAreDigits | hdhomerun_tui.c:198 | the digit part holds only digits |
| ModCod.NormalizedIdempotent | hdhomerun_tui.c:190-210 | normalising a normalised name changes nothing |
| ModCod.NormalizedExample | hdhomerun_tui.c:188 | "qam256" becomes "256QAM" |
| ModCod.NormalizedQpsk | hdhomerun_tui.c:190-210 | "QPSK" stays "QPSK" |
| PlpReport.Token | hdhomerun_tui.c:2445-2447 | the value after a key is a prefix of the rest of the line, holds no space and ends at a space or at the end |
| PlpReport.PlpLinesAppend | hdhomerun_tui.c:2433-2475 | the lines of two runs of plpinfo lines are the two runs' lines in turn |
| PlpReport.SnrStep | hdhomerun_tui.c:2439-2467 | with both keys present, the SNR line is the table row found for the normalised modulation and code rate, if any |
| PlpReport.SnrAbsent | hdhomerun_tui.c:2442 | no SNR line without both "mod=" and "cod=" |
| PlpReport.LookupLine | hdhomerun_tui.c:2443-2467 | returns the row whose SNR line the PLP line gets, or none |
| PlpReport.AddPlpLine | hdhomerun_tui.c:2436-2471 | one plpinfo line adds itself, its SNR line and a blank line, as far as they fit |
| PlpReport.AddPlpLines | hdhomerun_tui.c:2433-2475 | the `strtok` loop adds the lines of every plpinfo line, up to the display's capacity |
| PlpReport.BsidLineDropped | hdhomerun_tui.c:2436 | a line starting "bsid=" adds nothing |
| PlpReport.PlpLinesSplit | hdhomerun_tui.c:2433-2475 | the lines of a run split at any point |
| PlpReport.DetailLinesSplit | hdhomerun_tui.c:2398-2475 | the screen is the ID block followed by the lines of each plpinfo line |
| PlpReport.AddIds | hdhomerun_tui.c:2398-2431 | the screen starts with a blank line, the BSID line, the TSID line and a blank line |
| PlpReport.AssemblePlpDetails | hdhomerun_tui.c:2395-2475 | the display holds the ID block and the PLP lines, in order, up to MAX_DISPLAY_LINES |
| PlpReport.Separator | hdhomerun_tui.c:2503-2508 | the three separator lines are added exactly when more than three slots are free, and never overflow |
| PlpReport.DecodedDetail | hdhomerun_tui.c:2510-2515 | the L1 data is parsed exactly when the buffer was obtained and the text decodes, and then it is the decoded bytes |
| PlpReport.AppendL1Detail | hdhomerun_tui.c:2503-2517 | after the separator, a decodable l1detail loads the buffer with its bytes and appends the parse's lines as far as they fit; otherwise nothing more changes |
| PlpReport.WithoutSnrAppend | hdhomerun_tui.c:2433-2475 | dropping SNR lines distributes over concatenation |
| PlpReport.SpacedSnoc | hdhomerun_tui.c:2437-2471 | each listed line is followed by one blank line |
| PlpReport.WithoutSnrOfPlpLine | hdhomerun_tui.c:2436-2471 | apart from its SNR line, a plpinfo line adds itself and a blank line, or nothing for a "bsid=" line |
| PlpReport.PlpLinesLayout | hdhomerun_tui.c:2433-2475 | apart from SNR lines, the PLP section is every plpinfo line not starting "bsid=", each followed by a blank line |
| PlpReport.AnnotatedAppend | hdhomerun_tui.c:2433-2475 | annotated runs stay annotated when joined |
| PlpReport.SnrLinesShape | hdhomerun_tui.c:2462-2467 | a plpinfo line gets at most one SNR line |
| PlpReport.PlpLineAnnotated | hdhomerun_tui.c:2436-2471 | an SNR line directly follows the line it was computed from |
| PlpReport.PlpLinesAnnotated | hdhomerun_tui.c:2433-2475 | in the whole PLP section, every SNR line directly follows the plpinfo line it belongs to |
| PlpReport.SnrLinesPresent | hdhomerun_tui.c:2439-2467 | a line gets an SNR line exactly when it has "mod=" and "cod=" and their values name a table modulation and code rate |
| PlpReport.SnrLinesValues | hdhomerun_tui.c:2443-2466 | the SNR line shows that modulation's and code rate's table entries |
| PlpReport.BsidShown | hdhomerun_tui.c:2403-2416 | a plpinfo whose first "bsid=" follows any text pre and is followed by decimal n shows "L1D BSID: n" |
| PlpReport.BsidNotSet | hdhomerun_tui.c:2403-2418 | without "bsid=" the BSID line says "Not set" |
| PlpReport.TsidShown | hdhomerun_tui.c:2403-2418 | a streaminfo whose first "tsid=" follows any text pre and is followed by decimal n shows "SLT TSID: n" |
| PlpReport.TsidNotSet | hdhomerun_tui.c:2403-2418 | without "tsid=" the TSID line says "Not set" |
| Tuning.LastIndex | hdhomerun_tui_0.8.5_mac/hdhomerun_tui.c:1612-1613 | the scan's index holds the channel and no later one does; none exactly when the channel is not listed |
| Tuning.StepChannel | hdhomerun_tui_0.8.5_mac/hdhomerun_tui.c:1611-1629 | the step computes `NextChannel` |
| Tuning.StepStaysInList | hdhomerun_tui_0.8.5_mac/hdhomerun_tui.c:1611-1621 | with a list, the step always lands on a listed channel |
| Tuning.StepStaysInBand | hdhomerun_tui_0.8.5_mac/hdhomerun_tui.c:1622-1629 | without a list, a channel in 2..69 (or 0) steps into 2..69 |
| Tuning.StepRoundTrip | hdhomerun_tui_0.8.5_mac/hdhomerun_tui.c:1611-1621 | in a list without repeats, Left undoes Right and Right undoes Left |
| Tuning.FoundAtOwnIndex | hdhomerun_tui_0.8.5_mac/hdhomerun_tui.c:1613 | in a list without repeats, the scan finds each channel at its own place |
| Tuning.StepRoundTripInBand | hdhomerun_tui_0.8.5_mac/hdhomerun_tui.c:1622-1629 | without a list, Left undoes Right and Right undoes Left across 2..69 |
| Tuning.RepeatedChannelExample | hdhomerun_tui_0.8.5_mac/hdhomerun_tui.c:1613 | a channel listed twice is found at its last place |
| Tuning.RewritePlpList | hdhomerun_tui_0.8.5_mac/hdhomerun_tui.c:1788-1795 | the rewrite loop computes `PlpList` of the typed text |
| Tuning.PlpListShape | hdhomerun_tui_0.8.5_mac/hdhomerun_tui.c:1791-1794 | the result has one character per comma and per digit, and holds only digits and '+' |
| Tuning.PlpListOfPlainList | hdhomerun_tui_0.8.5_mac/hdhomerun_tui.c:1791-1794 | a list of digits and commas is kept character by character, each comma turned into '+' |
| Tuning.PlpListExample | hdhomerun_tui_0.8.5_mac/hdhomerun_tui.c:1791-1795 | "0, 1" becomes "0+1" |

## Left out

- User interface, curses drawing and all device I/O: `hdhomerun_device_*` calls are not modelled. The `plpinfo`, `streaminfo` and `l1detail` texts and the current channel are parameters.
- The gate before the L1-Detail block (hdhomerun_tui.c:2478-2497): the tuner status query and the firmware version parse with `atol` are device I/O and are not part of this model. `PlpReport.AppendL1Detail` is the block the gate guards.
- The channel parse at hdhomerun_tui_0.8.5_mac/hdhomerun_tui.c:1605-1609 (`strchr`/`strtoul` on the tuner status) is I/O; the current channel is a parameter.
- The 'p' handler's empty-input branch (hdhomerun_tui_0.8.5_mac/hdhomerun_tui.c:1796 onwards) calls the device and is not modelled.
- Tuning.RewritePlpList: requires a non-empty input, because the loop only runs inside `strlen(plp_str_in) > 0`; the empty case is the branch left out above.
- `snprintf`/`sprintf` formatting: display lines are records of what they show. SNR values are hundredths of a dB, not `float`s; `%.2f` prints exactly these.
- `strdup` and `free`: the display holds values, not heap copies.
- PlpReport.AppendL1Detail: uses the corrected decoder (`Base64.Decode`, first Findings row). For an l1detail with more than two trailing '=' ("A===") the source's `b64_decode` writes past the buffer it got from `malloc` and reports success, and `parse_l1_data` then runs over the buffer's stale bits with length 0. The model rejects that text, so the block shows only the separator and the buffer is not touched.
- `malloc` is modelled by a flag for whether it returned a buffer and by the buffer's arbitrary initial contents, both parameters of `PlpReport.AppendL1Detail`.
- `strtok`, `strstr`, `strchr` and `strncpy` are modelled by their specifications (`Text.Tokens`, `Text.Find`, `Text.FindChar`, `PlpReport.Token`) rather than by pointer loops.
- Bits.Read: a shift count of 32 or more (`get_bits(47)`, `get_bits(48)`, the skip before the CRC) is undefined behaviour in C. The model returns the field's mathematical value; every such value is discarded by the caller.
- Characters, not bytes: strings are sequences of characters, and the C counts bytes. The 15-character scan in `normalize_mod_str` (hdhomerun_tui.c:197), the `mod_len < 16` and `cod_len < 8` cut-offs (hdhomerun_tui.c:2448, 2457) and `wgetnstr`'s limit of 19 (hdhomerun_tui_0.8.5_mac/hdhomerun_tui.c:1785) agree with the model only for ASCII text. Tuner status and PLP text is ASCII.
- L1Spec.PlpCoreEnd, L1Spec.PlpCoreNext, L1Spec.PlpInterleaveLayout, L1Spec.InterleaveCti, L1Spec.InterleaveHti: require the fields to fit in the buffer (250 bits from the index for the core layer, 211 after the PLP type). Near the end of the buffer a field reads 0 without moving the index, and the positions they state no longer apply.
- Bits.BitReader.GetBits: returns the field as a natural number; the C `int` result is modelled separately (`Bits.AsWrittenResult`, see Findings).
- Stale bits beyond the loaded data: the buffer keeps an earlier call's bits past 8 * len, as the static array does, and the parse reads them. The model carries them; no property is stated about their values.
- PlpReport.AddIds: requires an empty display with room for four lines. The source writes the ID lines without checking the count; they are the first lines of a 1580-slot display, so they always fit.
- PlpReport.AssemblePlpDetails: parses bsid and tsid before the first blank line rather than after it; both parses are pure, so the lines are the same.
- The display cap `max_lines` is the display's capacity (`slots.Length`); `MAX_DISPLAY_LINES` is 1580.
- L1Spec.BasicFrame, L1Spec.BasicDetail, L1Spec.BasicFirstSub, L1Spec.BasicReserved, L1Spec.FrameLength, L1Spec.Basic: require that their fields fit in the buffer. L1-Basic begins at bit 0 of a 4096-bit buffer, so they always do at their one call site.
- `compare_channels`, `compare_plps`, `populate_channel_list` and the channel list sort are outside the modelled core.
- The functions of `l1_detail_parser.h` are not part of this model.
- Status.ParseStatusValue: the result -999 means "not found", but a status holding the key with the value -999 gives the same result (`Status.SentinelCollision`). The model keeps the sentinel, as every caller compares against it.

## Findings

| source | as written | input that shows it | evidently intended | confidence | as-written member | corrected member |
|---|---|---|---|---|---|---|
| hdhomerun_tui.c:2019-2046 | `b64_decode` checks the length, the characters and `outlen >= b64_decoded_size`, but not the number of trailing '='; the first byte of every quartet is stored unconditionally | "A===": `b64_decoded_size` is 0, all checks pass, and `out[0]` is written into a 0-byte buffer | reject more than two trailing '=' (RFC 4648 section 4 allows at most two), so every stored byte lies inside the buffer | not executed | Base64.AsWrittenWritesPastEnd, Base64.AsWrittenExample | Base64.Decode, Base64.WritesFit |
| hdhomerun_tui.c:2056-2068 | `get_bits` accumulates into a `long` but returns `int`; a 32-bit field with its top bit set becomes negative | a CRC field 0x80000000 at hdhomerun_tui.c:2187 or 2370 prints as 0xffffffff80000000 through `%08lx`, and `L1D_time_sec` (2199) prints negative | return the unsigned field value | not executed | Bits.AsWrittenSignFlip, Bits.AsWrittenExample | Bits.Read, Bits.BitReader.GetBits |
