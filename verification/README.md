# C-OS cores in Dafny

C-OS is a small operating system with its own applications and network services. This
project models the parts of it that are algorithms, and proves what they are for. Each
file is one module.

- **JPEG decoder** (`src/apps/jpeg_codec.c`). `BitReader` and `Huffman` are the bit
  window and the canonical tables with their nine-bit shortcut. `Progressive`,
  `ProgressiveScan` and `Sequential` are the block and scan decoders, in place over a
  coefficient buffer and as functions on streams of bits; `ProgressiveCoder` and
  `ProgressiveDc` add the coder of sections F.1.2 and G.1.2 of ITU-T T.81 and prove that
  decoding undoes coding. `Segments`, `CodedScan`, `CodedBand`, `CodedDc` and
  `CodedPicture` join the ends: from the coder's bits through stuffed bytes, reader and scan
  loops to the coefficients in memory, and for a progressive frame to its samples. `Idct` holds the inverse transforms with their shortcuts.
  `Geometry`, `Layout`, `Blocks`, `Upsample`, `Enlarge`, `Workspace` and `FrameSetup`
  model the one block of memory all planes, coefficients and row buffers are carved from,
  from the frame header to the picture rows, and `Picture` says what those rows are in samples.
- **Streaming scaler** (`src/apps/image_scale.c`): `Scaler`.
- **RAM file store** (`src/apps/storage_partition_stub.c`): `Store`, and `StoreRun` for
  whole runs against a tree of files and directories.
- **Messenger relay** (`tools/cosmsg_server.py`): `RelayMail`, `RelayFriends`,
  `RelayGroups`, `RelayReports`, `RelayLocks` and `RelayFiles` hold the tables for mail,
  friends, groups, reports, passwords and attachments, `RelayServer` one method for each
  command, `RelayModel` the same as a transition system with what holds over its runs,
  `RelayRun` runs of the one against the other, and `Wire` the line format.
- **CSS matching and cascade** (`tools/dom_css.go`): `Cascade`.
- **BMP decoder** (`src/apps/bmp_codec.c`): `Bmp` and `BmpRle`.
- **Configuration table** (`src/apps/config_manager.c`): `Config`.
- `BitSeq`, `Grid` and `Common` are shared: shifts, bits, row-major storage, options.

What works by changing things step by step is a class or a method over arrays here, proved
against a function or predicate; lemmas then say what that function is good for. Machine
arithmetic is explicit where it can matter: 64-bit windows, 16- and 32-bit casts, 32-bit
channel scaling, times and cross products modulo 2^64; elsewhere bounds are proved and integers are unbounded.

Eight places where the code does less than one might expect:

- `frame` and the reader of the relay lose a CR at the end of the last field, because the
  reader strips CR and LF; `Wire.FrameBack` gives the exact condition.
- `config_serialize_to_blob` writes keys and values without escaping, so TAB or LF in a key
  and LF in a value do not survive; `Config.RoundTrip` gives the exact condition.
- `config_add_entry` cuts keys to 63 characters but `config_find_entry` compares whole ones,
  so a longer key is never found again; see `Config.Manager.Update`.
- A crossed friend request is meant to be an acceptance, but the call at `cosmsg_server.py:854`
  lacks an argument, so the command ends in an exception; `RelayServer.Server.FReq` says when,
  and `RelayRun.CrossedRequests` shows two users who ask each other and do not become friends.
- GOWNER does not look at the number of sub-admins, so a group can come to have more than ten;
  `RelayGroups.HandOverLimit` gives the exact condition and `RelayGroups.ElevenAdmins` a group.
- The limits of 40 wrong passwords for a group and of 25 for a user are counted in windows that
  begin with a guess, not for every hour, so nearly twice as many can pass at once;
  `RelayLocks.NotRolling` shows how, `RelayLocks.LimitExactly` gives the exact condition, and
  `RelayLocks.GuessingIsSlow` what holds in any case.
- A file that has been made a directory keeps its extent, and creating the file again brings
  that back; `Store.Disk.CreateFile` says exactly when the store stays sound, and
  `Store.RelicClash` shows a table where it does not.
- `cos_img_fit_dims` multiplies without looking at the 64-bit range; `Scaler.FitDims` gives the
  exact condition for sides below 2^63, which all sides below 2^32 meet (`Scaler.SidesFit`), and `Scaler.FitWraps`
  an input beyond it.

## Model

| member | source | states |
|---|---|---|
| `BitReader.Reader.Fill` | src/apps/jpeg_codec.c:102-123 | topping the window up changes nothing about what the reader will still deliver: window plus unread data, unstuffed up to the first marker or the end, stay the same stream of bits |
| `BitReader.Reader.Consume` | src/apps/jpeg_codec.c:125-128 | handing out `n` bits advances that stream by `n`; the reader is marked insufficient exactly when a bit past the real data has been handed out; the invariant `0 <= padded <= cnt <= 64` is kept |
| `BitReader.Reader.Get` | src/apps/jpeg_codec.c:130-135 | returns the value of the next `n` unstuffed bits, zeros standing in for bits past the end |
| `BitReader.Reader.ReceiveExtend` | src/apps/jpeg_codec.c:137-140 | returns the next bits as the signed value of section F.2.2.1 of ITU-T T.81 |
| `BitReader.ReadsTakePrefix` | src/apps/jpeg_codec.c:102-140 | any list of reads hands out exactly the unstuffed bits in order, then zeros, and starves exactly when it asks for more bits than there are |
| `BitReader.UnstuffStuff` | src/apps/jpeg_codec.c:103-118 | byte stuffing is undone: whatever bytes are stuffed and ended by a marker are delivered unchanged |
| `BitReader.ShiftIn` | src/apps/jpeg_codec.c:116-121 | shifting a byte into the 64-bit register, dropping the top, is appending its bits to the window |
| `Huffman.Table.Build` | src/apps/jpeg_codec.c:163-189 | accepts a table exactly when its Kraft sum is at most one with at most 256 symbols and, for DC, no symbol above 15; then the nine-bit table and the canonical limits are complete for the code |
| `Huffman.Table.EnterCodes` | src/apps/jpeg_codec.c:173-183 | enters the codes of one length; refuses only codes that do not fit, which no feasible table has |
| `Huffman.Table.FillLook` | src/apps/jpeg_codec.c:176-181 | all nine-bit strings that begin with one code word, and no others, get its entry |
| `Huffman.Fits` | src/apps/jpeg_codec.c:173-184 | the codes up to a length fit in it exactly when the Kraft sum up to that length is at most one |
| `Huffman.KraftEdge` | src/apps/jpeg_codec.c:170-185 | the Kraft sum is where the codes of a length end on the left-aligned 16-bit axis |
| `Huffman.PrefixFree` | src/apps/jpeg_codec.c:163-189 | no code word of an accepted table is a prefix of another |
| `Huffman.FindIffPrefix` | src/apps/jpeg_codec.c:143-158 | the canonical search answers a symbol of length `l` exactly when its code word (section C.2 of ITU-T T.81) begins the next sixteen bits |
| `Huffman.FindIsWord` | src/apps/jpeg_codec.c:143-158 | whatever the search finds is a code word that begins the next bits |
| `Huffman.ShortCode` | src/apps/jpeg_codec.c:146-147 | the nine-bit look-up agrees with the search over all lengths, and an empty entry means no code of up to nine bits begins the bits |
| `Huffman.Table.Lookup` | src/apps/jpeg_codec.c:143-158 | look-up plus canonical fallback equals the search: length and symbol of the code word that begins the bits, or 16 and -1 when none does |
| `Huffman.Table.Decode` | src/apps/jpeg_codec.c:143-158 | decodes one symbol and advances the stream by its code word, or by 16 bits with answer -1 |
| `Progressive.NaturalInverse` | src/apps/jpeg_codec.c:28-39 | the zigzag table visits each of the 64 places exactly once |
| `Progressive.ZigzagInverse` | src/apps/jpeg_codec.c:28-39 | and every place is visited |
| `Progressive.ZigzagOrder` | src/apps/jpeg_codec.c:28-39 | places come in the order of row plus column, alternately down and up each antidiagonal, beginning at the top left |
| `Progressive.ZigPut` | src/apps/jpeg_codec.c:25-39 | a store at zigzag index `k` changes exactly coefficient `k`, or 63 when a corrupt run overshoots; it never leaves the block |
| `Progressive.BlkAcFirst` | src/apps/jpeg_codec.c:889-908 | the in-place decoder of a first AC scan equals the block function, end-of-band run included, and touches only its block |
| `Progressive.BlkAcRefine` | src/apps/jpeg_codec.c:910-946 | the in-place refinement decoder equals the block function: corrections of known coefficients, insertion of new ones, end-of-band runs |
| `Progressive.WalkBand` | src/apps/jpeg_codec.c:926-936 | the inner walk corrects nonzero coefficients and stops at the zero coefficient where the new one goes |
| `Progressive.BlkDcFirst` | src/apps/jpeg_codec.c:877-883 | decodes a DC difference onto the prediction, wrapped and scaled as the casts do |
| `Progressive.BlkDcRefine` | src/apps/jpeg_codec.c:885-887 | ors in one bit of a DC coefficient |
| `Progressive.DcSymbol` | src/apps/jpeg_codec.c:187-187 | the symbols of an accepted DC table never ask for more than 15 bits |
| `ProgressiveCoder.SymbolBack` | src/apps/jpeg_codec.c:143-158 | a coded symbol is decoded back and the decoder stands right behind it |
| `ProgressiveCoder.WalkBack` | src/apps/jpeg_codec.c:926-936 | the correction bits a coder sends are consumed by exactly the coefficients they belong to |
| `ProgressiveCoder.HeadBack` | src/apps/jpeg_codec.c:889-946 | the decoder follows the symbols of a block, ZRL and correction bits included, to where the coder stopped |
| `ProgressiveCoder.RunBack` | src/apps/jpeg_codec.c:901-905 | an end-of-band run of any length below 2^15 comes back |
| `ProgressiveCoder.ScanBack` | src/apps/jpeg_codec.c:889-946 | one scan brings every block from its earlier approximation to the next one, for any choice of end-of-band runs the coder makes |
| `ProgressiveCoder.SomePlan` | src/apps/jpeg_codec.c:901-905 | every list of blocks can be coded |
| `ProgressiveCoder.SuccessiveApproximation` | src/apps/jpeg_codec.c:889-946 | a first scan at bit position `a` and refinements down to 0, as a coder following section G.1.2 of ITU-T T.81 emits them, decode to exactly the original coefficients of the band |
| `ProgressiveDc.DcMcuBack` | src/apps/jpeg_codec.c:877-883 | the DC differences of an interleaved unit come back and the predictions follow the coder's |
| `ProgressiveDc.DcSuccessiveApproximation` | src/apps/jpeg_codec.c:877-887 | a first DC scan and its refinements restore every DC value |
| `ProgressiveScan.PosDistinct` | src/apps/jpeg_codec.c:1020-1024 | two blocks of a scan never share a place in the coefficient buffer |
| `ProgressiveScan.RunAcScan` | src/apps/jpeg_codec.c:995-1045 | the AC scan loop over the coefficient buffer equals the scan over the list of blocks, stops when the data runs out, and leaves padding blocks alone |
| `Sequential.BlkSeq` | src/apps/jpeg_codec.c:857-875 | the in-place sequential decoder over a zeroed block equals the block function and touches only its block |
| `Sequential.SeqIsHead` | src/apps/jpeg_codec.c:863-874 | the sequential decoder computes what the progressive one computes on the band 1 to 63 at full precision whenever no end-of-band run is left over |
| `Sequential.BlockBack` | src/apps/jpeg_codec.c:857-875 | a block coded as section F.1.2 of ITU-T T.81 says comes back with its DC value as the next prediction |
| `Sequential.SequentialScan` | src/apps/jpeg_codec.c:857-875 | a whole interleaved scan of any number of components comes back block by block |
| `Sequential.RunSeqScan` | src/apps/jpeg_codec.c:1005-1045 | the loop over units and blocks equals the scan function, with one prediction for each component, until the data runs out |
| `Segments.SegmentBack` | src/apps/jpeg_codec.c:102-123 | bits filled up with ones, packed, stuffed and ended by a marker are what the reader delivers |
| `CodedScan.DecodeScan` | src/apps/jpeg_codec.c:970-1065 | the scan loop over a reader leaves in the memory the blocks that the list decoder gives for the reader's bits |
| `CodedScan.FoundListed` | src/apps/jpeg_codec.c:1015-1024 | the block the memory loop visits is the one coded at its place in the interleaved order |
| `CodedScan.CodedToMemory` | src/apps/jpeg_codec.c:970-1065 | end to end: what a coder packs, stuffs and ends by a marker for any blocks of an interleaved sequential scan is decoded so that every real block of the workspace holds, or shows, the coder's coefficients |
| `CodedBand.DecodeBand` | src/apps/jpeg_codec.c:889-946 | end to end: the segments of a first AC scan and its refinements, read one after the other, leave the original coefficients of the band in the buffer and change nothing else |
| `CodedDc.FirstScan` | src/apps/jpeg_codec.c:877-883 | the loop of a first DC scan over a reader equals the scan function |
| `CodedDc.RefineScan` | src/apps/jpeg_codec.c:885-887 | so does the loop of a refinement scan |
| `CodedDc.DecodeDc` | src/apps/jpeg_codec.c:877-887 | end to end: the segments of a first DC scan and its refinements give every DC value back |
| `CodedPicture.PutDc` | src/apps/jpeg_codec.c:877-887 | the DC scans, read from their segments, put the coder's DC coefficients of their components into the decoder's memory |
| `CodedPicture.PutBand` | src/apps/jpeg_codec.c:889-946 | the passes of a band put the coder's coefficients of that band there, for every block of the component |
| `CodedPicture.DecodePicture` | src/apps/jpeg_codec.c:970-1083 | end to end: a progressive frame's DC scans and bands, in any split of the spectrum and with any number of refinements, leave every block's window showing the transform of the coder's coefficients |
| `Idct.RawFlat` | src/apps/jpeg_codec.c:257-413 | on an input without AC terms the butterfly is constant, the DC term at full scale |
| `Idct.RawBound` | src/apps/jpeg_codec.c:257-413 | outputs are bounded by 2^17 times the bound of the inputs |
| `Idct.DescaleCommon` | src/apps/jpeg_codec.c:243-243 | a factor of two common to value and scale can be cancelled before rounding |
| `Idct.CellFits` | src/apps/jpeg_codec.c:257-413 | for arbitrary coefficients and quantisers the cast of a workspace value to 32 bits loses nothing |
| `Idct.FlatColumn` | src/apps/jpeg_codec.c:257-413 | the zero-AC column shortcut gives exactly the full butterfly's results, in the 8x8, 4x4 and 2x2 forms |
| `Idct.FlatRow` | src/apps/jpeg_codec.c:257-413 | so does the zero-AC row shortcut |
| `Idct.Columns` | src/apps/jpeg_codec.c:257-413 | the column pass leaves in the workspace what the full kernel gives, shortcuts taken or not |
| `Idct.Block` | src/apps/jpeg_codec.c:257-413 | one block decoded into a plane: every sample of its window is what the full kernels give, in 0..255, and nothing outside the window changes; a block with a DC term only shows one shade, the product with its quantiser divided by eight, rounded, shifted to the middle and clamped |
| `Idct.OnlyProducts` | src/apps/jpeg_codec.c:245-248 | where the products stay in the range of the clamp, a block is decoded as the block of its products with all quantisers one: the coefficient counts with its own quantiser only |
| `Idct.FlatShows` | src/apps/jpeg_codec.c:257-413 | a block with a DC term only shows that shade in every sample, in all sizes and for 8 and 12 bits |
| `Geometry.Fits` | src/apps/jpeg_codec.c:745-751 | samples lie in decoded blocks, those in the padded plane, and real blocks in the padded grid, on both axes |
| `Geometry.Covers` | src/apps/jpeg_codec.c:676-696 | every mode but nearest-neighbour enlarges a component to at least the picture's width and height |
| `Geometry.ModeExact` | src/apps/jpeg_codec.c:676-696 | the chosen factors multiply a component's sampling to exactly the picture's, and the blending modes have at least three samples |
| `Geometry.AxisFits` | src/apps/jpeg_codec.c:708-751 | rounding up samples, then blocks, then coded units never loses a sample |
| `Geometry.SizesExact` | src/apps/jpeg_codec.c:717-748 | the scaled picture and the grid of coded units are as large as needed and no larger |
| `Geometry.LargestSize` | src/apps/jpeg_codec.c:757-758 | a component's blocks are doubled as long as both doubled sides go into the finest component's, and no longer |
| `Geometry.AxisCovers` | src/apps/jpeg_codec.c:676-696 | rounding up before enlarging covers what rounding up after enlarging would |
| `Layout.Apart` | src/apps/jpeg_codec.c:785-801 | slices that come later in the workspace begin after earlier ones end, and all lie inside it |
| `Layout.Disjoint` | src/apps/jpeg_codec.c:785-801 | planes, coefficients, row buffers, line and guard bytes share no byte |
| `Layout.BlocksApart` | src/apps/jpeg_codec.c:1020-1024 | different blocks share no coefficient |
| `Layout.WindowsApart` | src/apps/jpeg_codec.c:1028-1030 | different blocks share no sample of any plane |
| `Layout.WidestCovers` | src/apps/jpeg_codec.c:769-777 | the row buffers hold the widest enlarged row and the picture's width |
| `Blocks.PutBlock` | src/apps/jpeg_codec.c:948-955 | puts one block into its plane in any of the four sizes: the window holds the transform's samples, for a block without AC terms the shade of its DC term, and every other byte stays |
| `Blocks.ProductsShow` | src/apps/jpeg_codec.c:245-248 | a window that shows a block shows the block of its products under quantisers one, so that the picture depends on coefficients and quantisers through their products |
| `Blocks.FlatShows` | src/apps/jpeg_codec.c:257-413 | a window that shows a block with a DC term only is that one shade throughout |
| `Blocks.OtherWindow` | src/apps/jpeg_codec.c:1028-1030 | and leaves the window of every other block as it was |
| `Blocks.WindowKept` | src/apps/jpeg_codec.c:1028-1030 | and stays inside the component's plane |
| `Blocks.StoreBlock` | src/apps/jpeg_codec.c:1020-1027 | coefficients stored as 16-bit values read back as stored; only the block's 128 bytes change |
| `Blocks.LoadBlock` | src/apps/jpeg_codec.c:1077-1081 | reading a block gives its coefficients |
| `Blocks.Aligned` | src/apps/jpeg_codec.c:785-797 | coefficients are accessed at even addresses |
| `Upsample.FancyH2V1` | src/apps/jpeg_codec.c:1094-1106 | the horizontal fancy filter with its peeled ends is the triangle filter with the edge samples repeated |
| `Upsample.FancyH2V2` | src/apps/jpeg_codec.c:1108-1122 | the two-dimensional fancy filter, with its carried column sums, is the triangle filter in both directions |
| `Upsample.Blend` | src/apps/jpeg_codec.c:1136-1143 | the vertical fancy filter is the triangle filter between two rows |
| `Upsample.Spread` | src/apps/jpeg_codec.c:1153-1159 | integer enlarging repeats every sample the given number of times |
| `Upsample.Pick` | src/apps/jpeg_codec.c:1160-1165 | nearest-neighbour enlarging reads inside the row for every output |
| `Enlarge.EnlargeInto` | src/apps/jpeg_codec.c:1124-1167 | each mode fills exactly its output row, and reads only the source rows below it |
| `Workspace.Decoder.constructor` | src/apps/jpeg_codec.c:781-804 | the block has all planes grey, all coefficients zero and the guard in place |
| `Workspace.Decoder.RunScan` | src/apps/jpeg_codec.c:1005-1045 | every block of a unit that still has data gets its coefficients (or samples), each exactly once, and no other block changes; padding blocks are never written to a plane |
| `Workspace.UnitPadded` | src/apps/jpeg_codec.c:1015-1024 | whatever the data, the block a scan decodes is inside the padded grid |
| `Workspace.ReachesAll` | src/apps/jpeg_codec.c:995-1045 | a scan whose data lasts reaches every real block of its components |
| `Workspace.Decoder.Finish` | src/apps/jpeg_codec.c:1069-1083 | afterwards every real block's window shows the transform of its coefficients, and the coefficients are unchanged |
| `Workspace.Decoder.EnlargeRow` | src/apps/jpeg_codec.c:1124-1167 | the row buffer holds the component's row at full width, as `Picture.ShownAt` says in samples |
| `Workspace.ShownCovers` | src/apps/jpeg_codec.c:769-777 | every enlarged row covers the output width and fits its buffer with 32 bytes to spare |
| `Workspace.RowExists` | src/apps/jpeg_codec.c:1088-1092 | the component row behind a picture row exists; clamping matters only to blended neighbours |
| `Workspace.Decoder.OutputRow` | src/apps/jpeg_codec.c:1302-1308 | the line holds, pixel by pixel, the colour of the components' samples at that place; planes stay as they are and the guard is intact |
| `Picture.ShownAt` | src/apps/jpeg_codec.c:1124-1167 | every sample of a picture row is a formula of plane samples: the one at (y, x), or at (y / vexp, x / hexp), or at (y * dh / sh, x * dw / sw), or, where neighbours blend, three parts of row y / 2 and one of the row above or below by the parity of y, columns likewise, clamped at the edges |
| `Picture.SampleOfBlock` | src/apps/jpeg_codec.c:1015-1030 | every sample of a plane inside the component is one of the window of the block that covers it |
| `Workspace.Decoder.Close` | src/apps/jpeg_codec.c:810-817 | the guard check never fails |
| `FrameSetup.ChooseScale` | src/apps/jpeg_codec.c:719-743 | chooses the smallest of 1, 2, 4, 8 whose turned and scaled picture fits, or 8 when the rest is left to the scaler, or nothing without permission to fit |
| `FrameSetup.Measure` | src/apps/jpeg_codec.c:755-764 | the doubling loop and the size computations give the component's geometry |
| `FrameSetup.MeasureAll` | src/apps/jpeg_codec.c:753-768 | refuses early exactly when planes and coefficients exceed the limit, otherwise totals them |
| `FrameSetup.Setup` | src/apps/jpeg_codec.c:698-808 | a frame is refused exactly when it has no height, claims more blocks than the file can hold, does not fit the caller, or needs more than 256 MiB; an accepted one has valid memory |
| `FrameSetup.Run` | src/apps/jpeg_codec.c:1351-1426 | set-up, any scans, finishing, output and release: the picture shows what the scans left in the planes, and the guard warning is unreachable |
| `Scaler.Scaler.PushRow` | src/apps/image_scale.c:86-136 | each push keeps the streaming invariant: finished rows are final, the accumulator holds what the current row has received and every partial sum stays below 2^48, and only newly finished rows of the output change |
| `Scaler.Scaler.Horizontal` | src/apps/image_scale.c:90-110 | the horizontal pass leaves in every entry the weighted sum of the row |
| `Scaler.Scaler.EmitRow` | src/apps/image_scale.c:68-84 | one destination row is written, with colours averaged by alpha and alpha by area, and nothing else |
| `Scaler.WeightsSum` | src/apps/image_scale.c:95-109 | the weights of a destination cell over one axis sum to the source size |
| `Scaler.CellWeightsSum` | src/apps/image_scale.c:86-136 | the two-dimensional weights of a cell sum to the source area |
| `Scaler.SumsFit` | src/apps/image_scale.c:68-136 | for sides up to 65535 every final sum stays below 2^48 and every output is in 0..255 |
| `Scaler.PartialSums` | src/apps/image_scale.c:86-136 | so does every partial sum of the accumulator over the rows so far |
| `Scaler.PartialRow` | src/apps/image_scale.c:90-110 | and every partial sum of a row over the columns so far |
| `Scaler.SeparableArea` | src/apps/image_scale.c:86-136 | the two accumulators together are the two-dimensional weighted sum |
| `Scaler.ScaleImage` | src/apps/image_scale.c:86-136 | every destination pixel is the alpha-weighted area average of the source, rounded to nearest, and nothing outside the picture changes; stated once as formula of the accumulated sums and once in source bytes and overlaps |
| `Scaler.AveragedLit` | src/apps/image_scale.c:68-136 | an output pixel is the light of the source pixels on its area, each weighted by the overlap of the two squares and its alpha, to the nearest value; alpha itself is the mean of the alphas |
| `Scaler.ColourBetween` | src/apps/image_scale.c:68-136 | every output colour lies between the least and the greatest colour of the source pixels that overlap it and are not transparent |
| `Scaler.OneColour` | src/apps/image_scale.c:68-136 | a picture of one colour without transparent pixels stays that colour |
| `Scaler.Opaque` | src/apps/image_scale.c:68-136 | an opaque picture stays opaque, and its colours are the plain area averages, to the nearest value |
| `Scaler.Create` | src/apps/image_scale.c:41-58 | refuses exactly empty or enlarging geometry |
| `Scaler.FitDims` | src/apps/image_scale.c:24-39 | the source size if it fits; otherwise the largest size of its shape inside the limits, rounded down but at least 1, for sides below 2^63 exactly when the smaller cross product fits 64 bits and the remainder of the other does not fall below it |
| `Scaler.FitExactly` | src/apps/image_scale.c:30-36 | why, by cases of which product limits and which remainder is larger |
| `Scaler.SidesFit` | src/apps/image_scale.c:24-39 | sides below 2^32 meet that condition |
| `Scaler.FitWraps` | src/apps/image_scale.c:30-31 | an input outside that condition: a square inside a rectangle comes out one row high |
| `Store.Disk.Defragment` | src/apps/storage_partition_stub.c:694-740 | slides the live bytes down in place in offset order; every file keeps its content, and afterwards the data ends at the sum of the live sizes |
| `Store.PackBytes` | src/apps/storage_partition_stub.c:712-733 | the bytes moved down for one file overlap at most the file itself; no other file's bytes change |
| `Store.TotalIsLive` | src/apps/storage_partition_stub.c:348-357 | the packed size is the sum of the live files' sizes |
| `Store.Disk.Alloc` | src/apps/storage_partition_stub.c:319-346 | succeeds exactly when the bytes fit at the end, or after compaction; compaction changes no file |
| `Store.Disk.WriteFile` | src/apps/storage_partition_stub.c:535-576 | a successful write gives the file exactly the bytes and changes no other file, in place or relocated; a failed one changes no file |
| `Store.Disk.ReadFile` | src/apps/storage_partition_stub.c:503-533 | the file's bytes, cut or zero-filled to the buffer; fails, with zeros, exactly for paths that are no file |
| `Store.Disk.CreateFile` | src/apps/storage_partition_stub.c:452-485 | an existing file stays as it is; otherwise an empty one is there and every ancestor is a directory. Refused exactly when the table of 64 entries cannot hold the new paths, and then only ancestors were added. A directory that once was a file becomes that file with its old extent, and the store is sound afterwards exactly when, before the call, no file but those that become directories reaches into that extent |
| `Store.RelicClash` | src/apps/storage_partition_stub.c:465-469 | a sound table in which creating a file over such a directory makes two files overlap |
| `Store.Disk.EnsureParents` | src/apps/storage_partition_stub.c:289-317 | every ancestor of an absolute path has an entry that is a directory, unless the table is full, and no file changes |
| `Store.Disk.CreateDir` | src/apps/storage_partition_stub.c:578-606 | the path and its ancestors have directory entries, and no file changes; refused exactly when the table cannot hold them |
| `Store.MadeFits` | src/apps/storage_partition_stub.c:262-317 | paths made one after the other all fit exactly when the old and the new ones together do, in whatever order and with whatever repetitions |
| `Store.Disk.DeleteFile` | src/apps/storage_partition_stub.c:487-501 | removes exactly that file; fails exactly when it is none |
| `Store.Disk.DeleteDir` | src/apps/storage_partition_stub.c:608-634 | for a clean path: an entry goes exactly when it is the directory or has it among its ancestors, and everything else stays |
| `Store.InDirectory` | src/apps/storage_partition_stub.c:111-124 | the test by prefix is right: for a clean path, to be in a directory is to be it or to have it among the directories above |
| `Store.AncestorIs` | src/apps/storage_partition_stub.c:184-209 | the directories above a clean path are the root and what stands before each of its slashes |
| `Store.ParentIs` | src/apps/storage_partition_stub.c:184-209 | the parent of a clean path is what stands before its last slash |
| `Store.JoinedIn` | src/apps/storage_partition_stub.c:145-182 | a name joined to a directory is a clean path with that directory as its parent and that name at its end |
| `Store.JoinCut` | src/apps/storage_partition_stub.c:145-182 | in any case the joined path is as much of path, slash and name as the limit lets it be |
| `Store.Disk.CheckIntegrity` | src/apps/storage_partition_stub.c:664-692 | the check never fails in a valid state: extents in bounds, disjoint, and paths unique |
| `Store.SoundIntact` | src/apps/storage_partition_stub.c:664-692 | why: live extents are disjoint and within the data, and no empty file lies inside another's extent |
| `Store.Disk.Backup` | src/apps/storage_partition_stub.c:742-751 | saves entries, bytes and end of data |
| `Store.Disk.Restore` | src/apps/storage_partition_stub.c:753-766 | brings back what was saved: entries, bytes and end of data; fails exactly without a backup |
| `StoreRun.Run` | src/apps/storage_partition_stub.c:439-766 | over every allowed run every answer, reads with their bytes included, is the one a plain tree of files and directories gives; the store refines that tree and the integrity check passes at the end. A write is refused only for a path that is no file, or when live and new bytes together exceed the capacity |
| `StoreRun.Start` | src/apps/storage_partition_stub.c:439-450 | a formatted store refines the empty tree |
| `StoreRun.LiveIsBytes` | src/apps/storage_partition_stub.c:348-357 | the live bytes of the store are the bytes of all files of the tree together |
| `RelayMail.BoundedSend` | tools/cosmsg_server.py:505-518 | queueing into a mailbox that is not full keeps every bound: 2000 events, 64 keys, 400 from one sender besides keys |
| `RelayMail.BoundedKey` | tools/cosmsg_server.py:657-670 | so does queueing a group key under its own check |
| `RelayMail.BoundedRemove` | tools/cosmsg_server.py:562-569 | deleting events of any of the server's kinds keeps the bounds |
| `RelayMail.FullExactly` | tools/cosmsg_server.py:505-508 | a mailbox is full for a sender with 2000 events waiting in it or 400 of that sender |
| `RelayMail.BoundedExactly` | tools/cosmsg_server.py:505-508 | the bounds, as numbers of places in the table: 2000 events for a user, 64 keys among them, 400 from one sender that are no keys |
| `RelayMail.MailboxOrdered` | tools/cosmsg_server.py:461-462 | login replays a user's waiting events in increasing order of number, each once |
| `RelayMail.MailboxExactly` | tools/cosmsg_server.py:461-462 | and exactly those addressed to the user |
| `RelayFriends.AskOk` | tools/cosmsg_server.py:845-860 | a new request keeps friendship symmetric and irreflexive, one pending direction at most, no pending friends, and 50 requests at most |
| `RelayFriends.AcceptOk` | tools/cosmsg_server.py:861-871 | so does accepting |
| `RelayFriends.PartOk` | tools/cosmsg_server.py:872-876 | so does dropping friendships and requests |
| `RelayGroups.OneOwner` | tools/cosmsg_server.py:533-537 | in a sound group exactly one member has role 2 |
| `RelayGroups.SetRoleRoles` | tools/cosmsg_server.py:760-766 | appointing changes the role of that member only |
| `RelayGroups.HandedOverRoles` | tools/cosmsg_server.py:767-772 | a hand-over makes one the owner and the other a sub-admin, all others keep their roles |
| `RelayGroups.JoinedRoles` | tools/cosmsg_server.py:639-652 | who joins is a plain member, nobody else's role changes, and leaving again undoes it |
| `RelayGroups.DroppedRoles` | tools/cosmsg_server.py:562-577 | who leaves is a stranger and all others keep their roles, except that an owner who leaves is followed by the sub-admin who joined first or, without sub-admins, by the member who did |
| `RelayGroups.DropOk` | tools/cosmsg_server.py:562-577 | a group without one of its members is sound: heirs are chosen among those who stay, and their stored role becomes 0 |
| `RelayGroups.HandOverOk` | tools/cosmsg_server.py:767-772 | handing a group over keeps it sound and its members the same |
| `RelayGroups.HandOverAdmins` | tools/cosmsg_server.py:767-772 | how the number of sub-admins changes with a hand-over |
| `RelayGroups.HandOverLimit` | tools/cosmsg_server.py:767-772 | a hand-over keeps the limit of ten exactly when there was room or the new owner was a sub-admin |
| `RelayGroups.ElevenAdmins` | tools/cosmsg_server.py:760-772 | a sound group with ten sub-admins that has eleven after a hand-over |
| `RelayGroups.SetRoleAdmins` | tools/cosmsg_server.py:760-766 | appointing below the limit keeps the limit |
| `RelayGroups.MovesAdmins` | tools/cosmsg_server.py:562-577 | joining keeps the number of sub-admins and leaving never raises it |
| `RelayGroups.JoinOk` | tools/cosmsg_server.py:639-650 | joining keeps a group sound |
| `RelayReports.FileOk` | tools/cosmsg_server.py:889-902 | filing an admitted report keeps: exactly those users are restricted whom some report brought to five reporters within a week |
| `RelayReports.HourlyLimit` | tools/cosmsg_server.py:893-894 | in no hour, wherever it starts, does anybody file more than five reports |
| `RelayReports.OncePerDay` | tools/cosmsg_server.py:895-896 | nobody reports the same user twice within a day |
| `RelayReports.FiveAccusers` | tools/cosmsg_server.py:898-899 | behind every restricted account are five other users who reported it within one week |
| `RelayReports.FiveRestrict` | tools/cosmsg_server.py:897-900 | and a report that brings the reporters of the last week to five restricts |
| `RelayLocks.Gate.Verify` | tools/cosmsg_server.py:579-614 | the right password opens exactly while no lock is closed; a wrong one is counted for the user and group, the user, and the group; under a lock nothing is looked at or counted |
| `RelayLocks.GuessingIsSlow` | tools/cosmsg_server.py:579-614 | in every state: six wrong guesses of one user for one group in a row take more than 599 seconds, fifty of one user for all groups more than 3599, eighty of everybody for one group more than 1798 |
| `RelayLocks.LocksExactly` | tools/cosmsg_server.py:579-614 | in every state: a lock is closed exactly after the fifth, twenty-fifth or fortieth wrong guess, for ten minutes, an hour or half an hour, but for the last second |
| `RelayLocks.SlowWindow` | tools/cosmsg_server.py:601-613 | a counter with a window that locks at its limit lets less than twice the limit pass within its lock time |
| `RelayLocks.SlowPlain` | tools/cosmsg_server.py:601-604 | without a window it lets no more than the limit pass within its lock time |
| `RelayLocks.NotRolling` | tools/cosmsg_server.py:609-613 | at a new group's door 79 wrong guesses of different users are all looked at: one, 38 an hour later, and 40 a second after those; so 40 is not the limit for every hour |
| `RelayLocks.LimitExactly` | tools/cosmsg_server.py:601-613 | for an open counter of a user over all groups, or of a group: one guess more than the limit, from now on, always takes longer than the lock exactly when the counter is one below the limit, or its window has ended, or will not end while the lock would last |
| `RelayLocks.WrongGuesses` | tools/cosmsg_server.py:586-614 | whoever guesses wrong for a group, what is looked at is what its counter lets pass; for users new to it the counter alone decides |
| `RelayLocks.MoreThanForty` | tools/cosmsg_server.py:609-613 | wherever that condition fails for a group, 41 wrong guesses of new users are all looked at within 1798 seconds |
| `RelayLocks.Chosen` | tools/cosmsg_server.py:146-156 | a group's password is always six digits and none of the simple ones |
| `RelayLocks.WeakIsSimple` | tools/cosmsg_server.py:146-149 | the refused six-digit passwords are exactly 23 listed ones |
| `RelayLocks.StripBack` | tools/cosmsg_server.py:622-627 | stripping takes away exactly the blanks around a text |
| `RelayServer.FanOutOk` | tools/cosmsg_server.py:552-560 | group fan-out keeps every bound |
| `RelayServer.FanOutAdds` | tools/cosmsg_server.py:552-560 | it only appends, with new numbers, and addresses members other than the author |
| `RelayServer.FanOutDelivers` | tools/cosmsg_server.py:552-560 | because every member is listed once, what is queued for one fills no other mailbox: the post is delivered exactly once to each member it was due to at the start |
| `RelayServer.LastMember` | tools/cosmsg_server.py:569-571 | when the last member goes no event of the group is left |
| `RelayServer.KeyRoom` | tools/cosmsg_server.py:657-665 | a key that replaces an older copy always finds room |
| `RelayServer.Server.FReq` | tools/cosmsg_server.py:845-860 | asks exactly under the listed conditions, and changes nothing otherwise; fails exactly for a crossed request |
| `RelayRun.CrossedRequests` | tools/cosmsg_server.py:853-854 | two users who ask each other do not become friends |
| `RelayServer.Server.FAcc` | tools/cosmsg_server.py:861-871 | turns exactly a pending request into a mutual friendship |
| `RelayServer.Server.Block` | tools/cosmsg_server.py:907-911 | ends the friendship and the other's pending request |
| `RelayServer.Server.Report` | tools/cosmsg_server.py:889-902 | accepted exactly for another user whom the sender has not reported within a day, and below five reports within the hour; ends the friendship, blocks, and restricts a user whom five have reported within a week |
| `RelayServer.Server.Send` | tools/cosmsg_server.py:930-964 | queues one event exactly when the users are friends, the mailbox has room, the text is acceptable and the file that comes with it, if any, is the sender's own and complete; the event carries the text whole, or cut to 600 characters, or nothing for a deletion, as `BodyArrives` spells out; the friend may then have the file; otherwise nothing changes |
| `RelayServer.BodyArrives` | tools/cosmsg_server.py:930-940 | an envelope arrives whole or is refused above 3200 characters; a plain text arrives whole up to 600 characters and cut to the first 600 above, unless encryption is required; a deletion carries no text |
| `RelayServer.Server.Got` | tools/cosmsg_server.py:965-974 | takes exactly the recipient's event and answers with a receipt exactly for a one-to-one message, never twice for one number |
| `RelayServer.Server.OnLogin` | tools/cosmsg_server.py:447-464 | replays exactly the user's waiting events, oldest first |
| `RelayServer.Server.GNew` | tools/cosmsg_server.py:622-638 | founds a group with its owner as only member: exactly with a name, within the limit of groups per user, and with six digits that are not too simple where a password is given |
| `RelayServer.Server.GJoin` | tools/cosmsg_server.py:639-652 | admits exactly strangers with the group's password while no lock is closed, within both limits |
| `RelayServer.Server.GPass` | tools/cosmsg_server.py:752-759 | the owner alone changes the password; the group's lock opens |
| `RelayServer.Server.DropMember` | tools/cosmsg_server.py:562-577 | takes the member and the group's events waiting for it; the last member takes the group along |
| `RelayServer.Server.GKick` | tools/cosmsg_server.py:742-745 | the owner removes anybody, a sub-admin only plain members |
| `RelayServer.Server.GRole` | tools/cosmsg_server.py:760-766 | the owner appoints and dismisses sub-admins; this command never appoints an eleventh |
| `RelayServer.Server.GOwner` | tools/cosmsg_server.py:767-772 | hands over ownership; the former owner becomes a sub-admin, so their number grows by one unless the new owner was one |
| `RelayServer.Server.GKey` | tools/cosmsg_server.py:657-670 | replaces an older copy of the same key and epoch; success is exactly membership of both, an envelope of bounded size with a short epoch, and room, which a replacement always finds |
| `RelayServer.Server.GSay` | tools/cosmsg_server.py:671-697 | a post or its edit or deletion is queued exactly once, with its author's text, for every member whose mailbox has room, other than the author, and for nobody else; a file must be the author's own and complete and is then open to every member; everything else is refused without effect |
| `RelayRun.Run` | tools/cosmsg_server.py:616-1015 | any run of commands keeps the tables sound and goes, state by state, through a run of the transition system; its receipts are that run's |
| `RelayRun.Execute` | tools/cosmsg_server.py:616-1015 | every command leaves exactly the state the transition function gives for the one it found, all tables included |
| `RelayModel.StepHandled` | tools/cosmsg_server.py:505-518 | what one command does to the mailboxes: events go and come only for the reasons the protocol names, new ones have new numbers, a receipt is for a message without one |
| `RelayModel.NothingLost` | tools/cosmsg_server.py:562-569 | over any run, an event that waits after some command and no longer after a later one was taken in between by its recipient's acknowledgement, departure or rightful removal, or by a newer copy of the key |
| `RelayModel.NoStrangers` | tools/cosmsg_server.py:930-964 | over any run, an event that has come to wait was queued in between by its author, who was a friend of the recipient or in the same group at that moment, and its text is what the author wrote |
| `RelayModel.ReceiptOnce` | tools/cosmsg_server.py:965-974 | over any run no message is receipted twice |
| `RelayModel.FilesAreGiven` | tools/cosmsg_server.py:942-947 | over any run, whoever has come to be allowed a file was given it by a message of its owner, as a friend or as a member of the same group at that moment |
| `RelayModel.Consent` | tools/cosmsg_server.py:845-871 | over any run, nobody becomes a friend unless one side has asked and the other has accepted afterwards |
| `RelayModel.Admission` | tools/cosmsg_server.py:622-652 | over any run, nobody comes to be in a group without founding it or giving its password while no lock is closed |
| `RelayFiles.Attachments.Start` | tools/cosmsg_server.py:975-986 | accepts exactly sizes from 1 to 10 MiB with a free upload slot and quota left; the quota holds in every state |
| `RelayFiles.Attachments.Take` | tools/cosmsg_server.py:987-998 | appends exactly the next chunk within the declared size, and discards the upload otherwise |
| `RelayFiles.Attachments.Finish` | tools/cosmsg_server.py:999-1009 | a file is marked done exactly with its declared length, and finished files stay as they are |
| `RelayFiles.Attachments.Close` | tools/cosmsg_server.py:420-425 | a closed connection discards exactly what it had not finished |
| `RelayFiles.Attachments.Give` | tools/cosmsg_server.py:946-947 | gives a finished file of the owner to exactly the users named |
| `RelayFiles.SendFile` | tools/cosmsg_server.py:477-490 | numbered frames that concatenate back to the file, each but the last a whole chunk of 6144 bytes, exactly the last one marked |
| `RelayFiles.Attachments.Download` | tools/cosmsg_server.py:1010-1015 | a finished file goes exactly to its owner and to those it was given to, and what comes down is the accepted chunks in order |
| `RelayFiles.AnnouncementBack` | tools/cosmsg_server.py:942-942 | an announcement names its file, whatever separators the other fields have |
| `RelayFiles.AnnouncedOnly` | tools/cosmsg_server.py:942-942 | and whatever names a file is such an announcement |
| `RelayFiles.KeptDone` | tools/cosmsg_server.py:987-1009 | finished files and their owners outlast every step of the uploads |
| `Wire.UnescEsc` | tools/cosmsg_server.py:125-136 | unescaping undoes the three replacements for every text |
| `Wire.EscFree` | tools/cosmsg_server.py:125-126 | escaped text has no TAB and no LF, and ends in CR exactly when the text does |
| `Wire.Unescape` | tools/cosmsg_server.py:129-136 | the loop computes the unescaped text |
| `Wire.FrameBack` | tools/cosmsg_server.py:139-140 | stripping, splitting and unescaping a frame gives its fields back exactly when there is a field and the last one does not end in CR |
| `Wire.StreamBack` | tools/cosmsg_server.py:376-376 | a stream of frames comes back line by line with all fields |
| `Cascade.MatchesIffPlaced` | tools/dom_css.go:1031-1058 | a selector matches exactly when some placement of its parts on the element and its ancestors satisfies every part and every combinator |
| `Cascade.AnyElement` | tools/dom_css.go:1060-1127 | a selector without conditions accepts every element |
| `Cascade.OneMore` | tools/dom_css.go:1060-1127 | each condition of a selector adds exactly itself: a tag name, an id, a class, an attribute test, a pseudo-class |
| `Cascade.Operators` | tools/dom_css.go:1087-1120 | what each of the seven attribute operators accepts: presence, equality, a word of the value, the value or a beginning of it up to a hyphen, a beginning, an end, a part |
| `Cascade.OperatorsOnly` | tools/dom_css.go:1087-1120 | and nothing else |
| `Cascade.FoldWins` | tools/dom_css.go:1009-1029 | the in-place fold holds, for every declared property, the declaration greatest by (important, specificity, order), the last winning ties |
| `Cascade.SpecOrder` | tools/dom_css.go:909-929 | specificities are compared as numbers written with three digits in any base large enough |
| `Cascade.LeqOrder` | tools/dom_css.go:1009-1029 | importance outweighs specificity, and specificity the order of rules |
| `Cascade.BestUnique` | tools/dom_css.go:976-985 | the specificity a rule enters with is determined: the greatest of its selectors that match |
| `Cascade.TryRule` | tools/dom_css.go:974-985 | finds whether a rule matches and that greatest specificity |
| `Cascade.StyleOf` | tools/dom_css.go:971-998 | the loops fold all declarations that reach the element, those of its style attribute last |
| `Cascade.ApplyStyles` | tools/dom_css.go:962-1007 | every element gets, for every property, the winning declaration's value, and keeps its old values when nothing is declared |
| `Bmp.Parse` | src/apps/bmp_codec.c:52-151 | accepts exactly the headers that a predicate over the file's bytes describes; an accepted one is usable for every later access, and says what the bytes say: size, orientation, depth, masks, palette; refused as unsupported are exactly other header families, compressions and depths and sides above 65535 |
| `Bmp.Channels` | src/apps/bmp_codec.c:96-117 | succeeds exactly when the masks can be read and do not leave out all colours; each mask is its top value moved to its lowest bit |
| `Bmp.SetMask` | src/apps/bmp_codec.c:41-50 | the shift loop ends and finds the lowest bit of the mask |
| `Bmp.ScaleExact` | src/apps/bmp_codec.c:161-166 | the scaled value is the channel's share of 255, rounded down, for every pixel exactly when the channel's greatest value times 255 is below 2^32 |
| `Bmp.IndexIsBits` | src/apps/bmp_codec.c:203-208 | the palette index is the number that the pixel's own bits spell, first pixel in the high bits, and pixels never straddle bytes |
| `Bmp.RowFits` | src/apps/bmp_codec.c:170-216 | every byte of a row's pixels lies inside its stride, for all depths |
| `Bmp.RowInFile` | src/apps/bmp_codec.c:142-149 | every stored row lies inside the file |
| `Bmp.FindAlpha` | src/apps/bmp_codec.c:309-315 | finds out whether any stored pixel has a fourth byte |
| `Bmp.FillLine` | src/apps/bmp_codec.c:170-216 | converts the pixels of one row, stored or run-length coded; what they are is said by `Bmp.ShownIsMeant` |
| `Bmp.ShownIsMeant` | src/apps/bmp_codec.c:170-216 | a stored pixel is shown as its bytes mean it: the bottom row of an upward file first, blue before green before red, masks over the little-endian number, indices by the bits they spell; for channels that fit the 32-bit arithmetic |
| `Bmp.CroppedMeant` | src/apps/bmp_codec.c:269-348 | a cropped picture is, pixel by pixel, what the file's bytes mean |
| `Bmp.ShrunkMeant` | src/apps/bmp_codec.c:269-348 | a fitted picture is, pixel by pixel, the light of what the file's bytes mean |
| `Bmp.AndBit` | src/apps/bmp_codec.c:161-166 | masking keeps exactly the bits that both numbers have |
| `Bmp.Decode` | src/apps/bmp_codec.c:269-348 | succeeds exactly for acceptable headers whose pixels this decoder reads, and leaves embedded JPEG and PNG files to others; the output is the image cropped to the limits, or its area average at the fitted size, of the pixels that the file's bytes mean; bytes outside the picture, and everything on failure, stay as they were |
| `BmpRle.PaintedIsLast` | src/apps/bmp_codec.c:222-250 | a painted pixel has the value of a put that no later one overrides, others are undefined |
| `BmpRle.ShowsPut` | src/apps/bmp_codec.c:225-225 | one put, in or out of bounds, updates the plane accordingly |
| `BmpRle.Decode` | src/apps/bmp_codec.c:222-250 | the interpreter ends for every input, writes only inside the plane, and each pixel holds the last value the commands put there, or undefined |
| `BmpRle.CommandsBack` | src/apps/bmp_codec.c:222-250 | for any picture written as runs, literals, line ends and moves, in RLE4 or RLE8 with their packing and padding, the commands put exactly what was written |
| `Config.Writer.AppendChar` | src/apps/config_manager.c:77-83 | the buffer always holds as much of the text as fits, ended by a NUL |
| `Config.Writer.AppendU64` | src/apps/config_manager.c:92-107 | appends the decimal digits |
| `Config.NumberBack` | src/apps/config_manager.c:109-117 | a printed number is read back, modulo 2^64, whatever follows it but digits |
| `Config.Serialize` | src/apps/config_manager.c:119-143 | succeeds exactly when everything printed leaves room, and then the blob holds the printed table |
| `Config.NeverFull` | src/apps/config_manager.c:136-139 | a table of 64 entries never fills the 32768-byte blob |
| `Config.ReadLine` | src/apps/config_manager.c:160-174 | the state machine consumes exactly one line |
| `Config.Deserialize` | src/apps/config_manager.c:145-187 | appends the entries of the text, at most up to 64 |
| `Config.BodyBack` | src/apps/config_manager.c:160-183 | the state machine recovers every field of a printed line |
| `Config.ParsedClean` | src/apps/config_manager.c:145-187 | whatever the text, parsed entries have a key without TAB and LF and a value without LF, and are not dirty |
| `Config.ParsedFits` | src/apps/config_manager.c:145-187 | parsed keys and values fit their fields |
| `Config.Manager.Load` | src/apps/config_manager.c:282-301 | rebuilds a valid table from the file, or from the snapshot when there is none |
| `Config.RoundTrip` | src/apps/config_manager.c:119-187 | parsing the printed table restores every entry with dirty cleared, exactly when every key is nonempty without TAB and LF and every value without LF |
| `Config.Manager.Update` | src/apps/config_manager.c:236-260 | a key that fits is found again under its new value and no other key is affected; a key of 64 characters or more is stored cut off and never found, so each update with it uses up an entry, while the first value stays under the cut-off key |
| `Config.Manager.SaveAndLoad` | src/apps/config_manager.c:263-301 | after a successful write the table comes back with dirty cleared, exactly when the format can carry every entry; after a failed one an older file brings its own entries back, and without one the snapshot restores the table |

## Left out

JPEG decoder:

- Restart intervals (`process_restart`, `resync_to_restart`): a scan here has none, so between two restart markers it is a scan of its own with predictions and end-of-band runs at zero.
- Marker parsing, EXIF orientation, the search for a lines marker, colour conversion and `put_row`: library-like; the colour conversion is an arbitrary function from four samples to a pixel, and pictures are not turned.
- Workspace.Decoder.RunScan: what a block decodes to and which units still have data are arbitrary functions here, so that it holds for every entropy stream; `CodedScan` supplies them for sequential scans.
- FrameSetup.Run: the contents its scans decode are arbitrary in the same way.
- Blocks.StoreBlock: a decoded block arrives as one value; the block decoders work on a separate array of coefficients.
- CodedScan.DecodeScan: decodes the whole scan and then stores it, where `jpeg_codec.c` does both block by block; nothing that is stored is read by the entropy decoder of such a scan.
- CodedBand.DecodeBand: the coefficient buffer of one component is an array of integers; `CodedPicture.PutBand` fills it from the bytes of the workspace and stores it back.
- CodedDc.FirstScan: DC values are a list for each unit; `CodedPicture.PutDc` puts them into the workspace.
- CodedDc.RefineScan: the same.
- CodedDc.DecodeDc: the same.
- CodedPicture.DecodePicture: the DC scans come first, and the passes of one band follow each other; other orders of the scans are not covered.
- The standard Huffman tables, quantisation table parsing and the 12-bit frame's checks: constants and copying.
- AC writes of corrupt streams may reach index `se + 1` of a band, as in libjpeg; only that writes stay inside the block is claimed.
- Running out of memory in `kmalloc` and the final scaling of a decoded picture, which is the scaler's own result.
- Idct.Block: the three transforms are one method with a kernel for each size; the 1x1 form is in `Blocks.PutBlock`.

Scaler and BMP:

- Scaler.SumsFit: sums are unbounded integers bounded by lemmas, for sides up to 65535, which is the limit of both callers.
- Scaler.Create: running out of memory is not modelled.
- Bmp.Decode: the output buffer is smaller than 2^48 bytes, as addresses are; payloads that are JPEG or PNG files are answered as `Embedded`; uncropped rows go through the same line buffer as run-length coded ones instead of straight into the output.
- Bmp.ShownIsMeant: for channels whose greatest value times 255 exceeds 32 bits the code's result is no share of 255 (`Bmp.ScaleExact`), so that nothing is claimed for those.

File store:

- Raw sector access, mounting, listing, the log, and restoring after a format of another size share or change state the file layer does not track.
- Store.Disk.CreateFile: needs an absolute path other than `/`, because the walk to the parents only ends for those.
- StoreRun.Run: no operation turns a file into a directory, because such a directory has no counterpart in a tree of files and directories.
- Store.Disk.EnsureParents: needs an absolute path for the same reason.
- File attributes other than path, offset and size.

Relay:

- Every command is one atomic step on the tables; sockets, TLS, SQL text, suspension inside password hashing, presence, profiles, search, notes, announcements, keys, unblocking, avatars and sign-in are not modelled.
- Names of groups and files and generated passwords are parameters; so is the place where a new member's time of joining puts its row.
- RelayLocks.Gate.Verify: passwords are compared, not hashed, and the clock, a real number of seconds, never goes back.
- RelayServer.Server.Report: reason and evidence are not kept, and nobody lifts a restriction.
- RelayServer.Server.GNew: renaming is left out.
- RelayServer.Server.Send: the file that comes with a message is checked and given as in the code; sizes and names of files are left out.
- RelayFiles.Attachments.Download: avatars, which are open to everybody, and the purge of files and rights after two weeks are left out.
- RelayModel.FilesAreGiven: the table of finished files is never purged.
- Wire.FrameBack: characters, not bytes; UTF-8 and the limit on line length are left out.

CSS:

- Cascade.ApplyStyles: parsing style sheets, `specOf` and `addSpec` (counting, so selectors carry their specificity), lower-casing, splitting class names into words and evaluating pseudo-classes: a node carries what matching reads of it, and a rule whether its media condition holds.

Configuration:

- Config.Serialize: keys and values are C strings, so they have no NUL; the counters of operations are left out.
- Start-up defaults and the log.
