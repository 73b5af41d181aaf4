# Verified model of pigOS

A Dafny model of the parts of pigOS where most of its logic is: the font decoder, the display server, the
shell's parser and brace expansion, the cryptographic primitives, the text console, the WebSocket client, path
resolution and Tetris. Each component has its own module. Code that works in place on arrays or on the fields
of an object is modelled by methods and classes that do the same. Most of them are proved against something
simpler or older than the code: FIPS 180-4, RFC 2104 and RFC 6455, the OpenType `cmap` and `glyf` formats, an
ordered product of alternatives, an endless roll of paper, a stack of names, a fold over windows. Two are proved
against functions that take the code's own branches, on values: the charstring interpreter, of which it is then
proved that it halts, keeps to its stacks, closes every contour and draws any picture from the program printed
for it, and the shell parser, of which it is proved when it ends and that it reads back what a printer writes.

| files | component |
|---|---|
| `Common.dfy` | bytes, 16-bit integers, optional values, powers of two, rings |
| `Fips180.dfy`, `FipsConstants.dfy`, `FipsExample.dfy`, `Sha256.dfy` | SHA-256 and HMAC |
| `Bignum.dfy`, `BignumLadder.dfy` | multiword integers and modular power |
| `EdgeSort.dfy` | sorting of rasterizer edges |
| `GlyphLoad.dfy`, `GlyphOutline.dfy` | simple TrueType glyphs, from bytes to outline |
| `CharstringSpec.dfy`, `Charstring.dfy`, `CharstringShape.dfy` | Type 2 charstrings |
| `CharstringNumber.dfy`, `CharstringDrawing.dfy`, `CharstringPrint.dfy` | what a charstring stands for |
| `CmapSearch.dfy` | code point to glyph |
| `RectPack.dfy`, `Prefilter.dfy` | the font texture |
| `ShellAst.dfy`, `ShellParser.dfy`, `ShellRoundTrip.dfy`, `ShellHangs.dfy` | the shell's grammar |
| `Counter.dfy`, `BraceRange.dfy`, `BraceExpansion.dfy`, `BraceScanner.dfy` | brace expansion |
| `WindowServer.dfy`, `Compositor.dfy` | the display server |
| `VgaConsole.dfy` | the text console |
| `WebSocket.dfy` | frames over a stream |
| `PathResolve.dfy` | lexical path resolution |
| `TetrisBoard.dfy`, `Tetris.dfy` | the game |

`dafny verify dfyconfig.toml` checks everything.

Where the code does not do what its purpose or its comments say, the model follows the code. Each of these has
the exact condition under which the two agree, and an input on which they do not:

- `bn_mod` is the remainder only below the modulus, and so `bn_powmod` is the modular power if and only if the
  power is below the modulus (`Bignum.PowModAsCoded`, `BignumLadder.WrongPower`). With a correct reduction the
  same code is right except for the power 0 modulo 1 (`Bignum.PowModReduced`).
- The `cmap` lookup does not add the delta to a stored glyph (`CmapSearch.AgreesWithStandard`,
  `CmapSearch.DeltaIgnored`).
- The shell parser does not end on some malformed input: in a simple command that is cut off behind a redirection
  operator, and in a body before tokens that start no command and do not end it. A scan of the token list finds
  exactly the lists on which this happens (`ShellHangs.ParserEnds`, `ShellHangs.BodyEnds`,
  `ShellHangs.AmpersandsHang`).
- The counter of a brace range wraps around. So the words are the progression from start to end if and only if
  the step is positive and the value after the last one, wrapped, is past the end
  (`BraceRange.RangeIsProgression`, `BraceRange.NegativeStep`), and the loop ends if and only if some counter
  that it can reach is past the end (`BraceRange.RangeEndsExactly`, `BraceExpansion.EndlessRangeNeverEnds`). A
  word of a range may be an opening brace (`BraceRange.RangeOpens`, `BraceExpansion.BraceComesOut`).
- A padded negative number has its zeros before the sign (`BraceRange.PadReads`,
  `BraceExpansion.PaddedSignExpands`).
- Brace splitting writes a backslash twice inside double quotes (`BraceExpansion.SplitKeepsText`,
  `BraceExpansion.EscapeDoubled`).
- Scrolling back in the console shows the oldest line kept, not the latest
  (`VgaConsole.Console.ScrollAndBack`, `VgaConsole.WrongLineBack`).
- Normalizing a path takes one slash off its end, before runs of slashes become one
  (`PathResolve.NormalizeTidy`, `PathResolve.SlashLeft`).

Three more conditions are proved without calling the code wrong: a box wider than the texture is packed all the
same and sticks out (`RectPack.PackedInside`); a frame longer than the buffer leaves its tail in the stream
(`WebSocket.RoundTrip`); a client's message acts on whatever window has the id (`WindowServer.TouchesOnlyOwn`).

## Model

| member | source | states |
|---|---|---|
| `Sha256.RollingStep` | pigOS/crypto/sha256.h:40-43 | the word computed over the 16-word ring is word 16i+j of the 64-word schedule of section 6.2.2 of FIPS 180-4, whenever the ring holds the sixteen words before it |
| `Sha256.ScheduleWord` | pigOS/crypto/sha256.h:37-44 | one turn of the first half of the loop puts the next schedule word in the ring and keeps the ring in step with the schedule |
| `Sha256.RoundInPlace` | pigOS/crypto/sha256.h:45-52 | eight assignments to the registers are one round of section 6.2.2 |
| `Sha256.Consume` | pigOS/crypto/sha256.h:22-56 | four rolling rounds of sixteen are the 64-round compression of the hash value with the block |
| `Fips180.WordBytes` | pigOS/crypto/sha256.h:89-92 | the big-endian packing of a word and its unpacking are inverse to each other, both ways |
| `Fips180.PadIsLeast` | pigOS/crypto/sha256.h:78-94 | the padding of section 5.1.1 is no longer than any block-aligned message with room for the marker bit and the length |
| `FipsConstants.KIsFromCubeRoots` | pigOS/crypto/sha256.h:26-34 | constant t of the rounds is the first 32 bits of the fraction of the cube root of the prime number t (section 4.2.2) |
| `FipsConstants.HIsFromSquareRoots` | pigOS/crypto/sha256.h:58-62 | word t of the initial hash value is the first 32 bits of the fraction of the square root of the prime number t (section 5.3.3) |
| `FipsConstants.Rotates` | pigOS/crypto/sha256.h:18-20 | rotation by n moves the bit n places above bit i to bit i |
| `FipsConstants.ChoosesAndVotes` | pigOS/crypto/sha256.h:45-50 | bit by bit, Ch chooses between its last two arguments by the first, and Maj is the majority of the three |
| `FipsExample.AbcDigest` | pigOS/crypto/sha256.h:96-98 | the digest of `abc` is ba7816bf 8f01cfea 414140de 5dae2223 b00361a3 96177a9c b410ff61 f20015ad, the known answer of the standard |
| `FipsExample.FirstBytes` | pigOS/crypto/sha256.h:89-92 | as bytes, it starts with ba, 78, 16, bf |
| `Sha256.Hasher.Init` | pigOS/crypto/sha256.h:58-62 | a new hasher has absorbed the empty message |
| `Sha256.Hasher.AbsorbSome` | pigOS/crypto/sha256.h:67-75 | bytes go to the carry buffer, which is consumed when it fills; afterwards the state is that of the longer message |
| `Sha256.Hasher.Write` | pigOS/crypto/sha256.h:64-76 | after a write of any length the state is that of the old message with the data appended, wherever block boundaries fall |
| `Sha256.BigEndianWraps` | pigOS/crypto/sha256.h:85-87 | eight length bytes depend on the length modulo 2^64 only |
| `Sha256.LengthWraps` | pigOS/crypto/sha256.h:85-87 | a length counter that has wrapped at 2^64 gives the same eight length bytes as the true length in bits |
| `Sha256.WriteLength` | pigOS/crypto/sha256.h:85-87 | the shifting loop stores the 64-bit bit length in big-endian order |
| `Sha256.PadSplit` | pigOS/crypto/sha256.h:79-88 | the one or two last blocks built at closing are exactly the tail of the padded message, in both cases of the room test |
| `Sha256.Hasher.Close` | pigOS/crypto/sha256.h:78-94 | closing writes the FIPS 180-4 digest of everything written |
| `Sha256.HashParts` | pigOS/crypto/sha256.h:58-94 | for every message and every way of cutting it into writes the result is the digest of the whole |
| `Sha256.CalcSha256` | pigOS/crypto/sha256.h:96-98 | the one-call form computes the digest |
| `Sha256.KeyBlock` | pigOS/crypto/sha256.h:102-104 | a key longer than a block is replaced by its digest, and the block is filled with zeros |
| `Sha256.HmacSha256` | pigOS/crypto/sha256.h:101-111 | the result is HMAC of section 2 of RFC 2104 over SHA-256 |
| `EdgeSort.Insert` | pigOS/display-server/stb_truetype.h:3401-3413 | one pass of insertion extends the sorted front by one edge and loses none |
| `EdgeSort.InsertionSort` | pigOS/display-server/stb_truetype.h:3399-3415 | the array ends sorted and a permutation of what it was |
| `EdgeSort.MedianToFront` | pigOS/display-server/stb_truetype.h:3424-3444 | the pivot ends in front, with an edge behind it that is not below it and one that is not above it: the sentinels of both scans |
| `EdgeSort.ScanUp` | pigOS/display-server/stb_truetype.h:3452-3454 | the unguarded upward scan stops at the sentinel at the latest, at the first edge not below the pivot |
| `EdgeSort.ScanDown` | pigOS/display-server/stb_truetype.h:3455-3457 | the unguarded downward scan stops inside the range, at the first edge from above that is not above the pivot |
| `EdgeSort.Partition` | pigOS/display-server/stb_truetype.h:3446-3466 | no index leaves the range, nothing below `i` is above the pivot, nothing from `i` on is below it, and at most one edge lies between `j` and `i` |
| `EdgeSort.SplitJoin` | pigOS/display-server/stb_truetype.h:3467-3475 | two split halves with at most one edge between them, all in order, make a split whole |
| `EdgeSort.Cut` | pigOS/display-server/stb_truetype.h:3421-3466 | one partition keeps the loop invariant over the whole range and orders the two sides |
| `EdgeSort.Turn` | pigOS/display-server/stb_truetype.h:3420-3476 | one turn sorts the smaller side by a nested call on at most half of the edges and goes on with the larger, keeping the loop invariant over the whole range |
| `EdgeSort.LeftBetween` | pigOS/display-server/stb_truetype.h:3446-3475 | the edge at `j` that a partition leaves between its two parts is in order with the part before it if and only if it is not below the pivot |
| `EdgeSort.Quicksort` | pigOS/display-server/stb_truetype.h:3417-3477 | the range is permuted and cut, again and again, where nothing on the left is above anything on the right, down to pieces of at most twelve edges; the edge that a partition leaves at `j` stays on the left side, in no piece; nested calls are at most log2 of the number of edges deep |
| `EdgeSort.SortEdges` | pigOS/display-server/stb_truetype.h:3479-3483 | for every edge array the result is a sorted permutation, with call depth at most log2 n |
| `GlyphLoad.FlagsRoundTrip` | pigOS/display-server/stb_truetype.h:1714-1724 | loading undoes run-length coding of the flags, for every legal division into runs |
| `GlyphLoad.DeltaRoundTrip` | pigOS/display-server/stb_truetype.h:1730-1738 | each of the four forms of a coordinate change is read back as the change that was written |
| `GlyphLoad.CoordsRoundTrip` | pigOS/display-server/stb_truetype.h:1726-1756 | loading coordinates undoes their coding as changes, for either axis and every choice of forms |
| `GlyphLoad.SumsOfChanges` | pigOS/display-server/stb_truetype.h:1726-1740 | every list of 16-bit coordinates can be written as changes, also where the running sum leaves 16 bits |
| `GlyphLoad.PointsRoundTrip` | pigOS/display-server/stb_truetype.h:1714-1756 | whatever legal coding was used for flags and coordinates, the three passes give the points back and stop at the end of the glyph |
| `GlyphLoad.LoadFlags` | pigOS/display-server/stb_truetype.h:1714-1724 | the first pass stores exactly the flags that the bytes stand for and touches nothing else |
| `GlyphLoad.LoadCoords` | pigOS/display-server/stb_truetype.h:1726-1756 | the second and third pass store exactly the coordinates and leave flags and the other axis alone |
| `GlyphLoad.GetGlyphShape` | pigOS/display-server/stb_truetype.h:1698-1811 | from bytes to vertices: the result is the outline of the points that the bytes stand for |
| `GlyphLoad.DecodePrinted` | pigOS/display-server/stb_truetype.h:1698-1811 | any glyph with well-formed contours is decoded to its outline from any legal coding of it |
| `GlyphLoad.EncodeRoundTrip` | pigOS/display-server/stb_truetype.h:1714-1756 | every list of points with 16-bit coordinates has a coding that loads exactly these points |
| `GlyphLoad.EncodeAndDecode` | pigOS/display-server/stb_truetype.h:1698-1811 | so every well-formed list of points has bytes from which the decoder draws its outline |
| `GlyphOutline.TraceShape` | pigOS/display-server/stb_truetype.h:1795-1809 | the commands of a contour end at its start, contain no move, and are at most one more than its points |
| `GlyphOutline.TraceControls` | pigOS/display-server/stb_truetype.h:1796-1804 | the control points of the curves are the off-curve points, each once and in order |
| `GlyphOutline.TraceEndPoints` | pigOS/display-server/stb_truetype.h:1795-1809 | the commands end exactly at the on-curve points, given or implied halfway between off-curve neighbours, in order |
| `GlyphOutline.ContourShape` | pigOS/display-server/stb_truetype.h:1766-1811 | a contour starts with its only move, ends where it started, has one curve for every off-curve point and ends its commands at the on-curve points |
| `GlyphOutline.RestRotates` | pigOS/display-server/stb_truetype.h:1771-1786 | drawing order moves only a leading off-curve point, to the end |
| `GlyphOutline.DrawnOnce` | pigOS/display-server/stb_truetype.h:1758-1811 | every off-curve point of a contour is the control point of exactly one curve |
| `GlyphOutline.TraceJoins` | pigOS/display-server/stb_truetype.h:1795-1809 | every two neighbours are joined by a command, and every command joins two neighbours |
| `GlyphOutline.ContourJoins` | pigOS/display-server/stb_truetype.h:1766-1811 | going round a contour, every point is joined to the next: by a line between two points on the curve, and by a curve around a point off it, which ends at the next point or, if that is off the curve too, at a point halfway (rounded towards minus infinity) |
| `GlyphOutline.OutlineJoins` | pigOS/display-server/stb_truetype.h:1758-1811 | the same in the outline of the whole glyph, for every contour |
| `GlyphOutline.ContourStarts` | pigOS/display-server/stb_truetype.h:1770-1790 | a contour starts at its first point, at its second if only that is on the curve, or halfway between the two |
| `GlyphOutline.OutlineLength` | pigOS/display-server/stb_truetype.h:1700 | an outline of k contours has at most points + 2k commands, the size that is allocated |
| `GlyphOutline.CloseShape` | pigOS/display-server/stb_truetype.h:1658-1672 | closing writes the commands from the pen back to the start, in each of the four cases |
| `GlyphOutline.ChooseStart` | pigOS/display-server/stb_truetype.h:1770-1790 | the start point and what is left to draw are those of the contour, also when it starts off the curve |
| `GlyphOutline.StartContour` | pigOS/display-server/stb_truetype.h:1766-1794 | starting a contour overwrites no point that is still to be read |
| `GlyphOutline.DrawPoint` | pigOS/display-server/stb_truetype.h:1795-1809 | one point adds at most one command, and the commands written with those still to come stay the same |
| `GlyphOutline.Finish` | pigOS/display-server/stb_truetype.h:1767-1768 | at the end of a contour the vertices written are the outline so far, with the unread points intact |
| `GlyphOutline.Convert` | pigOS/display-server/stb_truetype.h:1758-1811 | the in-place conversion never overwrites an unread point and leaves exactly the outline, in at most n + 2 * contours vertices |
| `CharstringSpec.Step` | pigOS/display-server/stb_truetype.h:2023-2262 | an instruction that does not fail or finish keeps the operand stack within 48 and the call stack within 10 |
| `CharstringSpec.StepShrinks` | pigOS/display-server/stb_truetype.h:2023-2262 | every instruction makes the lexicographic measure over the bytes left in each nested subroutine smaller, so every program halts |
| `CharstringNumber.NumberReads` | pigOS/display-server/stb_truetype.h:1204-1215 | every number, in every one of the five encodings of Technical Note 5177 that can hold it, is read back as itself, and exactly its bytes are consumed |
| `CharstringNumber.NumberIsCoded` | pigOS/display-server/stb_truetype.h:2246-2260 | conversely, the bytes of every number that stands in a program in full are the encoding of what is read |
| `CharstringDrawing.TurnsDraw` | pigOS/display-server/stb_truetype.h:2084-2098 | `hvcurveto` and `vhcurveto`, on the differences of any curves that leave along one axis and arrive along the other in turn, draw these curves, with and without the fifth operand |
| `CharstringDrawing.FollowsDraw` | pigOS/display-server/stb_truetype.h:2123-2134 | `hhcurveto` and `vvcurveto` draw any curves that leave and arrive along their axis, the first at any angle with the extra operand |
| `CharstringDrawing.OperatorDraws` | pigOS/display-server/stb_truetype.h:2043-2244 | every path and flex operator, on its operands for any list of absolute lines and curves that it can draw, draws exactly these and leaves the pen at their end |
| `CharstringDrawing.RoundsToZero` | pigOS/display-server/stb_truetype.h:1942-1966 | coordinates lose their fraction, towards zero |
| `CharstringPrint.PushAll` | pigOS/display-server/stb_truetype.h:2246-2260 | printed operands go on the stack in order |
| `CharstringPrint.CallLeads` | pigOS/display-server/stb_truetype.h:2136-2158 | a call of a subroutine that holds some items does what the items do, and goes on behind the call |
| `CharstringPrint.ItemsLead` | pigOS/display-server/stb_truetype.h:2023-2262 | printed items, anywhere in a program and at any depth of calls, lead to the place that they mean and draw what they mean |
| `CharstringPrint.ProgramDraws` | pigOS/display-server/stb_truetype.h:2010-2267 | the program printed for any list of absolute moves, lines, curves, hints, masks and subroutines runs to exactly the vertices of that list, with open contours closed, whatever encoding each number has and whichever operators draw the segments |
| `CharstringPrint.MoveOneRight` | pigOS/display-server/stb_truetype.h:2043-2047 | `1 0 rmoveto endchar` is a move to (1, 0) |
| `Charstring.Context.TrackVertex` | pigOS/display-server/stb_truetype.h:1911-1918 | the box stays the least one around the points seen |
| `Charstring.Context.AddVertex` | pigOS/display-server/stb_truetype.h:1920-1934 | in the counting pass a vertex is counted and bounded, in the output pass it is stored |
| `Charstring.Context.CloseShape` | pigOS/display-server/stb_truetype.h:1936-1940 | a line back to the start of the contour, if the pen is elsewhere |
| `Charstring.Context.RMoveTo` | pigOS/display-server/stb_truetype.h:1942-1948 | closes the contour and starts the next one |
| `Charstring.Context.RCurveTo` | pigOS/display-server/stb_truetype.h:1957-1966 | the three relative points are added up in the right order |
| `Charstring.DrawAltLines` | pigOS/display-server/stb_truetype.h:2065-2082 | alternating lines, starting in either direction, use every operand |
| `Charstring.DrawAltCurves` | pigOS/display-server/stb_truetype.h:2084-2098 | alternating curves, starting in either direction, with the optional last operand |
| `Charstring.DrawPath` | pigOS/display-server/stb_truetype.h:2043-2134 | every path operator fails on exactly the stacks that its specification rejects and otherwise draws its stroke |
| `Charstring.DrawFlex` | pigOS/display-server/stb_truetype.h:2164-2244 | each of the four flex operators draws its two curves |
| `Charstring.Machine.DoCall` | pigOS/display-server/stb_truetype.h:2136-2152 | a call pushes a frame or fails on an empty stack, at depth ten or for a missing subroutine |
| `Charstring.Machine.DoReturn` | pigOS/display-server/stb_truetype.h:2154-2158 | a return resumes the caller and fails outside a subroutine |
| `Charstring.Machine.DoMask` | pigOS/display-server/stb_truetype.h:2028-2034 | a mask first takes pending stems, then skips one bit for each |
| `Charstring.Machine.DoPush` | pigOS/display-server/stb_truetype.h:2246-2260 | a number is decoded as `CharstringNumber.NumberReads` says and pushed, or the operator is reserved or the stack full |
| `Charstring.StepOnce` | pigOS/display-server/stb_truetype.h:2023-2262 | one turn of the interpreter loop is one step of the specification, in state and in what is drawn |
| `Charstring.RunCharstring` | pigOS/display-server/stb_truetype.h:2010-2267 | the interpreter stops on every program and draws what the specification draws |
| `Charstring.GetGlyphShape` | pigOS/display-server/stb_truetype.h:2269-2284 | the counting pass and the output pass agree, so the array that was allocated is filled exactly, and every contour of the 16-bit vertices that are returned is closed |
| `Charstring.GetGlyphInfo` | pigOS/display-server/stb_truetype.h:2286-2295 | the number of vertices and the least box around every point that is drawn through |
| `CharstringShape.PathLeads` | pigOS/display-server/stb_truetype.h:2043-2134 | every path operator leaves the pen where its vertices lead |
| `CharstringShape.RunCloses` | pigOS/display-server/stb_truetype.h:2010-2267 | from any state of a run that succeeds, what is drawn from there ends every contour where it started |
| `CharstringShape.GlyphCloses` | pigOS/display-server/stb_truetype.h:2010-2267 | every contour that a program draws is closed, and a new one starts only from a closed one |
| `CharstringShape.StoredWalk` | pigOS/display-server/stb_truetype.h:1920-1934 | cutting coordinates to 16 bits when vertices are stored leads the same way |
| `CharstringShape.StoredCloses` | pigOS/display-server/stb_truetype.h:2269-2284 | so the contours of the stored vertices are closed too |
| `CmapSearch.Table.Scan` | pigOS/display-server/stb_truetype.h:1516-1560 | a scan from the first segment finds the first one that does not end before the code point |
| `CmapSearch.Halve` | pigOS/display-server/stb_truetype.h:1536-1544 | the halving loop narrows to the segment and reads only end codes of the table |
| `CmapSearch.FindSegment` | pigOS/display-server/stb_truetype.h:1522-1550 | for every conforming table the biased search lands on the segment of the code point |
| `CmapSearch.FindGlyphIndex` | pigOS/display-server/stb_truetype.h:1516-1560 | the glyph is that of a linear scan, for every code point, with every read inside the data |
| `CmapSearch.AgreesWithStandard` | pigOS/display-server/stb_truetype.h:1552-1559 | the glyph is the one OpenType defines if and only if the code point is not in the segment, or the segment has no offset, or the stored glyph is 0, or the delta is 0 |
| `CmapSearch.DeltaIgnored` | pigOS/display-server/stb_truetype.h:1559 | a conforming table whose glyph differs from the standard: the delta is not added to a stored glyph |
| `CmapSearch.FindInGroups` | pigOS/display-server/stb_truetype.h:1561-1585 | formats 12 and 13: the glyph of the only group that holds the code point, and 0 when none does |
| `RectPack.ApartIsDisjoint` | pigOS/display-server/stb_truetype.h:3928-3947 | boxes with area are apart if and only if no pixel is in both |
| `RectPack.Context.ChooseShelf` | pigOS/display-server/stb_truetype.h:3932-3935 | a new shelf starts below everything exactly when the box would stick out |
| `RectPack.Context.Advance` | pigOS/display-server/stb_truetype.h:3938-3943 | placing a box keeps all boxes apart, and inside the target exactly when they are not too wide for it |
| `RectPack.Context.PackRects` | pigOS/display-server/stb_truetype.h:3928-3947 | boxes are placed in order up to the first that does not fit; the others are marked, and sizes and ids are kept |
| `RectPack.PackCalls` | pigOS/display-server/stb_truetype.h:3917-3947 | over any number of calls on one target, each call places the first boxes it was given, marks the others, and stops only at a box that would reach below the target; what is on the target is exactly what the calls placed, in order |
| `RectPack.PackedDisjoint` | pigOS/display-server/stb_truetype.h:3928-3947 | no pixel is in two of all the rectangles that any of the calls placed |
| `RectPack.PackedInside` | pigOS/display-server/stb_truetype.h:3928-3947 | each of them, also a lone one, is inside the target if and only if it is no wider than it |
| `RectPack.EdgesKept` | pigOS/display-server/stb_truetype.h:4236-4240 | after the padding is taken off, every box that is not too wide is drawn at least the padding away from the four edges |
| `RectPack.PaddingKept` | pigOS/display-server/stb_truetype.h:4236-4240 | and any two are drawn at least the padding apart |
| `Prefilter.WindowSlides` | pigOS/display-server/stb_truetype.h:4057-4059 | adding the new sample and taking off the oldest moves the window by one |
| `Prefilter.HoldsStep` | pigOS/display-server/stb_truetype.h:4057-4058 | the eight-slot ring holds what will leave the window, for every kernel up to eight |
| `Prefilter.Conserves` | pigOS/display-server/stb_truetype.h:4012-4072 | before the division, every sample is counted exactly `kernel` times: the filter loses nothing but rounding |
| `Prefilter.Slide` | pigOS/display-server/stb_truetype.h:4056-4060 | one turn of the main loop: the ring, the running total and the mean |
| `Prefilter.Fade` | pigOS/display-server/stb_truetype.h:4064-4068 | one turn over the blank end of the line |
| `Prefilter.FilterRow` | pigOS/display-server/stb_truetype.h:4019-4068 | every sample of a row becomes the floor of the mean of the last `kernel` original samples, and no other sample changes |
| `Prefilter.FilterRows` | pigOS/display-server/stb_truetype.h:4012-4072 | the same for every row of a part of an image |
| `Prefilter.FilterColumn` | pigOS/display-server/stb_truetype.h:4081-4130 | the vertical filter is the transpose of the horizontal one |
| `Prefilter.FilterColumns` | pigOS/display-server/stb_truetype.h:4074-4134 | the same for every column of a part of an image |
| `Prefilter.AcrossBlankEnd` | pigOS/display-server/stb_truetype.h:4184-4201 | filtering rows leaves the blank end that filtering columns needs |
| `Prefilter.FilterGlyph` | pigOS/display-server/stb_truetype.h:4184-4201 | both passes: the mean down the column of the means along the rows, with nothing outside the glyph touched |
| `ShellParser.Parser.ParseSimpleCommand` | pigOS/shell/larpshell/ast.go:237-292 | assignments, arguments, redirections and `&` as the specification says; reports a redirection without a target on which the source would loop for ever |
| `ShellParser.Parser.ParseRedirection` | pigOS/shell/larpshell/ast.go:259-269 | an operator and its target, or an operator without one, which becomes an argument |
| `ShellParser.Parser.ParseCommand` | pigOS/shell/larpshell/ast.go:220-235 | the kind of command is chosen by its first token |
| `ShellParser.Parser.ParsePipeline` | pigOS/shell/larpshell/ast.go:192-218 | negation and commands joined by pipes |
| `ShellParser.Parser.ParseAndOr` | pigOS/shell/larpshell/ast.go:176-190 | pipelines joined from the left by `&&` and `||` |
| `ShellParser.Parser.ParseCompoundBody` | pigOS/shell/larpshell/ast.go:453-475 | the commands up to one of the end tokens; reports a token on which the source would loop for ever |
| `ShellParser.Parser.ParseIf` | pigOS/shell/larpshell/ast.go:308-344 | a condition, a body, any number of elif branches and an optional else |
| `ShellParser.Parser.ParseWhile` | pigOS/shell/larpshell/ast.go:346-368 | while and until loops |
| `ShellParser.Parser.ParseFor` | pigOS/shell/larpshell/ast.go:370-400 | for loops, with the words after `in` |
| `ShellParser.Parser.ParseCase` | pigOS/shell/larpshell/ast.go:402-451 | case statements with their patterns and branches |
| `ShellParser.Parser.ParseProgram` | pigOS/shell/larpshell/ast.go:160-174 | a list of commands up to the end of the tokens |
| `ShellHangs.SimpleScans` | pigOS/shell/larpshell/ast.go:237-292 | a simple command ends unless a redirection operator of it is the last token; where it ends and whether it is nil can be read off the tokens |
| `ShellHangs.SimpleNil` | pigOS/shell/larpshell/ast.go:237-292 | a simple command is nil and takes no token if and only if the tokens start nothing: none, a stop token, or two ampersands |
| `ShellHangs.AndOrNil` | pigOS/shell/larpshell/ast.go:176-190 | the same for a whole and-or list, which is the guard of the body loop that does not end |
| `ShellHangs.ParserEnds` | pigOS/shell/larpshell/ast.go:154-475 | the parser does not end on a token list if and only if the scan of the list, with a stack of open commands and no trees, finds such a place |
| `ShellHangs.BodyEnds` | pigOS/shell/larpshell/ast.go:453-475 | the same for each of the five kinds of body on its own, with whatever is nested in it |
| `ShellHangs.StuckOnRedirection` | pigOS/shell/larpshell/ast.go:259-266 | no program ends that starts with a simple command cut off behind a redirection operator |
| `ShellHangs.FlatParserEnds` | pigOS/shell/larpshell/ast.go:154-292 | without compound commands: the parser does not end if and only if the scan, without a stack, finds a command that is cut off |
| `ShellHangs.FlatEnds` | pigOS/shell/larpshell/ast.go:154-292 | without compound commands the parser ends unless the last token is a redirection operator |
| `ShellHangs.UnopenedEnds` | pigOS/shell/larpshell/ast.go:154-475 | with compound commands, but no `then`, `do` or `)` that opens a body of one, the parser ends unless the last token is a redirection operator |
| `ShellHangs.DroppedOperator` | pigOS/shell/larpshell/ast.go:160-174 | it ends on some lists that do end in one, because the top level drops the token |
| `ShellHangs.AmpersandsHang` | pigOS/shell/larpshell/ast.go:453-475 | a loop whose body is at two ampersands, whatever follows, does not end |
| `ShellHangs.StuckInBody` | pigOS/shell/larpshell/ast.go:453-475 | a body before tokens that start nothing, and do not end it, does not end |
| `ShellRoundTrip.SimpleRoundTrip` | pigOS/shell/larpshell/ast.go:237-292 | parsing a printed simple command gives it back and stops behind it, at the end of the tokens or before any token that ends a command |
| `ShellRoundTrip.SimpleConserves` | pigOS/shell/larpshell/ast.go:237-292 | on any tokens, well-formed or not, a simple command that is parsed is made of exactly the tokens that were used up |
| `ShellRoundTrip.PipelineRoundTrip` | pigOS/shell/larpshell/ast.go:192-218 | the same for pipelines |
| `ShellRoundTrip.AndOrRoundTrip` | pigOS/shell/larpshell/ast.go:176-190 | the same for and-or lists, whose tree leans to the left |
| `ShellRoundTrip.CondRoundTrip` | pigOS/shell/larpshell/ast.go:308-320 | a condition is read back with any number of semicolons before `then` or `do` |
| `ShellRoundTrip.IfRoundTrip` | pigOS/shell/larpshell/ast.go:308-344 | the same for if statements with any number of elif branches |
| `ShellRoundTrip.WhileRoundTrip` | pigOS/shell/larpshell/ast.go:346-368 | the same for while and until loops |
| `ShellRoundTrip.ForRoundTrip` | pigOS/shell/larpshell/ast.go:370-400 | the same for for loops |
| `ShellRoundTrip.CaseRoundTrip` | pigOS/shell/larpshell/ast.go:402-451 | the same for case statements |
| `ShellRoundTrip.RoundTrip` | pigOS/shell/larpshell/ast.go:154-475 | for every canonical tree over words that are not reserved, parsing its printed tokens stops, uses all of them and returns that tree, however many semicolons stand behind each command, also with none behind the last one and none behind `&` |
| `ShellRoundTrip.ParsePrinted` | pigOS/shell/larpshell/ast.go:154-475 | the parser object itself does this |
| `BraceExpansion.SplitMarks` | pigOS/shell/larpshell/brace.go:198-274 | no element has more opening braces and dots than the content |
| `BraceExpansion.RangeMarks` | pigOS/shell/larpshell/brace.go:276-344 | a word of a range has at most one opening brace or dot, and the content of its braces has two |
| `BraceExpansion.AlternativesMarks` | pigOS/shell/larpshell/brace.go:29-48 | every alternative, of a list or of a range, put back in its word has fewer opening braces and dots than the word, so the recursion ends |
| `BraceExpansion.TryAlt` | pigOS/shell/larpshell/brace.go:116-196 | the closing brace of a printed alternative list is found, whatever braces are nested in it |
| `BraceExpansion.FindAlt` | pigOS/shell/larpshell/brace.go:56-114 | the first brace of a word behind plain or quoted text is found, with its prefix, content and suffix |
| `BraceExpansion.SplitJoined` | pigOS/shell/larpshell/brace.go:198-274 | splitting undoes joining: the elements of a printed list are its printed elements |
| `BraceExpansion.PassQuotation` | pigOS/shell/larpshell/brace.go:56-196 | both scans for a brace pass over single quotes, double quotes and escapes, whatever is in them |
| `BraceExpansion.SplitQuotation` | pigOS/shell/larpshell/brace.go:198-274 | splitting keeps a quotation in its element as it is |
| `BraceExpansion.ProductAssoc` | pigOS/shell/larpshell/brace.go:19-49 | the ordered product of alternatives is associative |
| `BraceExpansion.ExpandIsDenotation` | pigOS/shell/larpshell/brace.go:19-49 | for every nested brace tree over plain, quoted and escaped text, expansion of the printed word is the ordered left-to-right product of its alternatives |
| `BraceExpansion.QuotedStays` | pigOS/shell/larpshell/brace.go:19-49 | a word whose braces are all quoted or escaped is left as it is |
| `BraceExpansion.JoinSplit` | pigOS/shell/larpshell/brace.go:198-274 | joining the elements with commas gives the content back, longer by one for every escape inside double quotes |
| `BraceExpansion.SplitKeepsText` | pigOS/shell/larpshell/brace.go:198-274 | splitting keeps the text if and only if there is no escape inside double quotes |
| `BraceExpansion.EscapeDoubled` | pigOS/shell/larpshell/brace.go:224-231 | a word that is expanded with its backslash written twice |
| `BraceExpansion.RangeExpands` | pigOS/shell/larpshell/brace.go:19-49 | a word with a range in it stays, never ends, or becomes one word for each value, exactly as the range does, also when a value is an opening brace |
| `BraceExpansion.EndlessRangeNeverEnds` | pigOS/shell/larpshell/brace.go:332-344 | the expansion of `{a..c..4294967296}` never ends |
| `BraceExpansion.PaddedSignExpands` | pigOS/shell/larpshell/brace.go:346-352 | `{001..-1}` is expanded to `001`, `000` and `0-1` |
| `BraceExpansion.BraceComesOut` | pigOS/shell/larpshell/brace.go:332-344 | the expansion of `{c..a..-24}` ends, and an opening brace is among its words |
| `BraceRange.PadReads` | pigOS/shell/larpshell/brace.go:346-352 | a padded number reads back as itself if and only if it is not negative or needs no padding |
| `Counter.CycleNever` | pigOS/shell/larpshell/brace.go:319-327 | a loop over wrapping counters that comes back to its start before it has passed its end never passes it |
| `Counter.OddReaches` | pigOS/shell/larpshell/brace.go:319-327 | the multiples of an odd number reach everything modulo a power of two |
| `Counter.LoopEnds` | pigOS/shell/larpshell/brace.go:319-327 | a loop over counters of any width, in either direction, ends if and only if the last counter congruent to its start, modulo the largest power of two that divides its step, is past its end |
| `Counter.ProgressionExactly` | pigOS/shell/larpshell/brace.go:319-327 | its values are the arithmetic progression from start to end if and only if the step is positive and the value after the last one, wrapped, is past the end |
| `Counter.StaysWithoutOverflow` | pigOS/shell/larpshell/brace.go:319-327 | for a step that is itself a counter this means that the value after the last one does not overflow |
| `BraceRange.RangeEndsExactly` | pigOS/shell/larpshell/brace.go:276-344 | the expansion of a range does not end if and only if no counter congruent to its start, modulo the largest power of two in its step, is past its end: in 64 bits for numbers and in 32 for letters |
| `BraceRange.RangeIsProgression` | pigOS/shell/larpshell/brace.go:276-344 | a range goes through the progression that it spells if and only if its loop does not wrap on the way |
| `BraceRange.IntsStay` | pigOS/shell/larpshell/brace.go:313-330 | a range of numbers does so if and only if its step is positive and the value after the last one does not overflow |
| `BraceRange.RangeOpens` | pigOS/shell/larpshell/brace.go:276-352 | a word of a range is an opening brace or has none in it, and there is such a word if and only if letters that should go down have a negative step that leads from the first to the brace |
| `BraceRange.EndlessLetters` | pigOS/shell/larpshell/brace.go:332-344 | letters with any step that is a multiple of 2^32 never end |
| `BraceRange.NegativeStep` | pigOS/shell/larpshell/brace.go:276-330 | `1..3..-1` ends, but does not go through the progression |
| `BraceRange.ExpandIntRange` | pigOS/shell/larpshell/brace.go:313-330 | the two loops compute the padded words of the values, wrapped as they come; a counter that is back at its start goes round for ever |
| `BraceRange.ExpandCharRange` | pigOS/shell/larpshell/brace.go:332-344 | the same for letters, whose product is taken in 64 bits and cut to 32 |
| `BraceRange.ExpandRange` | pigOS/shell/larpshell/brace.go:276-311 | reading start, end and step, and the choice between numbers, letters and no range |
| `BraceScanner.LookAt` | pigOS/shell/larpshell/brace.go:56-114 | the quote and escape handling that both scanners share |
| `BraceScanner.TryBraceAt` | pigOS/shell/larpshell/brace.go:116-196 | the scan for the matching brace, with depth, comma and range |
| `BraceScanner.FindBraceExpansion` | pigOS/shell/larpshell/brace.go:56-114 | the first brace that can be expanded, or -1 |
| `BraceScanner.SplitBraceElements` | pigOS/shell/larpshell/brace.go:198-274 | the splitting loop computes the elements |
| `BraceScanner.ExpandBraceToken` | pigOS/shell/larpshell/brace.go:19-49 | the recursive expansion computes the specified words, or reports that a range in it never ends |
| `Bignum.Cmp` | pigOS/crypto/bignum.h:17-24 | numeric order of the values, whatever leading zero words there are |
| `Bignum.Copy` | pigOS/crypto/bignum.h:25 | the same words |
| `Bignum.Add` | pigOS/crypto/bignum.h:26-34 | the exact sum, also when the result is one of the operands |
| `Bignum.Sub` | pigOS/crypto/bignum.h:35-42 | the exact difference, also in place, without leading zeros; wrapped when it would be negative |
| `Bignum.MulRow` | pigOS/crypto/bignum.h:46-53 | one row adds one multiple at its place, and the double-word accumulator does not overflow |
| `Bignum.Mul` | pigOS/crypto/bignum.h:43-55 | the exact product, without leading zeros |
| `Bignum.ReduceTurn` | pigOS/crypto/bignum.h:61-62 | one turn of the reduction loop doubles the unchanged number and subtracts the modulus once at most |
| `Bignum.Mod` | pigOS/crypto/bignum.h:56-66 | what the code computes: the number itself when it is below the modulus, and twice the number less the modulus otherwise, for which alone there must be room |
| `Bignum.Reduce` | pigOS/crypto/bignum.h:56-66 | the reduction as coded, or any other one given by its values, for which there is room |
| `Bignum.MulMod` | pigOS/crypto/bignum.h:67-69 | the reduction of the exact product |
| `Bignum.ShiftRight` | pigOS/crypto/bignum.h:75-76 | the multiword shift halves the value |
| `Bignum.LadderLoop` | pigOS/crypto/bignum.h:72-77 | the loop over words and bits is the square-and-multiply ladder, whatever the reduction |
| `Bignum.PowMod` | pigOS/crypto/bignum.h:70-79 | the result is that ladder from one |
| `Bignum.FitsWhenReduced` | pigOS/crypto/bignum.h:70-79 | with remainders the intermediate results fit as soon as the modulus does |
| `Bignum.FitsWhenSmall` | pigOS/crypto/bignum.h:70-79 | with the reduction as coded they fit while the power is below the modulus and its square can be doubled |
| `Bignum.FitsWhenRoom` | pigOS/crypto/bignum.h:70-79 | with the reduction as coded they fit for all numbers when there is three times the room for each bit of the exponent |
| `Bignum.PowModReduced` | pigOS/crypto/bignum.h:70-79 | given a correct reduction, and a base and a modulus of at most half of the words, the words of the result are base^exp mod m if and only if the exponent is not 0 or the modulus is not 1 |
| `Bignum.RsaPublic` | pigOS/crypto/rsa.h:18-20 | given a correct reduction, the public operation of a 2048-bit key is the modular power, with the 64 words there are |
| `Bignum.PowModAsCoded` | pigOS/crypto/bignum.h:70-79 | with the reduction as coded, the words of the result are base^exp mod m if and only if base^exp is below m |
| `BignumLadder.CodeModIsRemainder` | pigOS/crypto/bignum.h:56-66 | the reduction is the remainder if and only if the number is below the modulus |
| `BignumLadder.LadderKeeps` | pigOS/crypto/bignum.h:70-79 | with a correct reduction every turn keeps result times power modulo m |
| `BignumLadder.LadderIsPower` | pigOS/crypto/bignum.h:70-79 | with a correct reduction the ladder is base^exp mod m, except for the power 0 modulo 1 |
| `BignumLadder.CodeLadderGrows` | pigOS/crypto/bignum.h:70-79 | with the reduction as written the ladder is never below the true power |
| `BignumLadder.CodeLadderSmall` | pigOS/crypto/bignum.h:70-79 | and it is the true power while that is below the modulus |
| `BignumLadder.CodePowerExactly` | pigOS/crypto/bignum.h:70-79 | the code computes base^exp mod m if and only if base^exp is below m |
| `BignumLadder.WrongPower` | pigOS/crypto/bignum.h:70-79 | 3^2 mod 5 comes out as 21 |
| `WindowServer.ShowKeeps` | pigOS/project/display-server/window.c:24-46 | showing a window with a fresh id and a fresh buffer in a free slot keeps the tables consistent |
| `WindowServer.HideKeeps` | pigOS/project/display-server/window.c:51-59 | hiding a window and dropping its buffer keeps the tables consistent |
| `WindowServer.ClientKeeps` | pigOS/project/display-server/main.c:142-145 | a client record changes consistently when the client stays active or owns no window |
| `WindowServer.Server.Find` | pigOS/project/display-server/window.c:61-67 | a visible window with the id, or the certainty that there is none |
| `WindowServer.Server.WindowCreate` | pigOS/project/display-server/window.c:12-49 | succeeds if and only if there is a free slot and shared memory; on success one free slot changes, on failure no visible window does |
| `WindowServer.Server.WindowDestroy` | pigOS/project/display-server/window.c:51-59 | hides the window with the id and no other |
| `WindowServer.Server.WindowMove` | pigOS/project/display-server/window.c:83-88 | moves the window with the id and no other |
| `WindowServer.Server.WindowMarkCommitted` | pigOS/project/display-server/window.c:90-94 | marks the window with the id and no other |
| `WindowServer.Server.SocketAccept` | pigOS/project/display-server/socket.c:68-104 | succeeds if and only if there is a connection and a free slot; the slot that is reused owns no window |
| `WindowServer.Server.ClientDisconnect` | pigOS/project/display-server/main.c:130-146 | hides exactly the windows of the client and frees its slot |
| `WindowServer.Server.HandleCreate` | pigOS/project/display-server/main.c:61-86 | the new window takes the next id, belongs to the client that asked, and no visible window changes |
| `WindowServer.Server.HandleAccept` | pigOS/project/display-server/socket.c:68-104 | a connection takes a free slot, with its descriptor and process, or nothing changes |
| `WindowServer.Server.Handle` | pigOS/project/display-server/main.c:50-128 | what each message does to each window and each client, and that messages of inactive clients do nothing |
| `WindowServer.TouchesOnlyOwn` | pigOS/project/display-server/main.c:50-128 | the step of a message changes windows of its sender only, if and only if no window of another client has the id, or that window is already as the message asks |
| `WindowServer.HangUpTouchesOwn` | pigOS/project/display-server/main.c:130-146 | the step of a hang-up hides every window of its client, and changes no window and no slot of another |
| `WindowServer.GoneUntilAccepted` | pigOS/project/display-server/main.c:50-146 | in every run, a client that has hung up shows no window again before a connection takes its slot |
| `WindowServer.Run` | pigOS/project/display-server/main.c:50-146 | over every run: the tables start empty and follow the events step by step; visible ids are distinct and below the next id, counts equal the live slots, buffers correspond one to one to visible windows, every visible window belongs to an active client |
| `Compositor.FindAt` | pigOS/project/display-server/window.c:69-81 | the topmost visible window at a place, or that there is none |
| `Compositor.FrameTop` | pigOS/project/display-server/compositor.c:170-179 | windows above the topmost one at a pixel do not change the pixel |
| `Compositor.PictureAgreesWithHit` | pigOS/project/display-server/compositor.c:74-96 | where the topmost window has alpha 0 or 255 the screen shows its colour, and the background where there is no window: picture and hit test agree |
| `Compositor.MixInRange` | pigOS/project/display-server/compositor.c:91-93 | a blended channel fits in a byte |
| `Compositor.MixIsMean` | pigOS/project/display-server/compositor.c:91-93 | a blended channel is the mean of the two, weighted by alpha and rounded down, and lies between them |
| `Compositor.CompositeRow` | pigOS/project/display-server/compositor.c:116-126 | one clipped row is blended, and no other pixel changes |
| `Compositor.CompositeWindow` | pigOS/project/display-server/compositor.c:98-131 | every screen pixel that the window covers is blended with the right source pixel, wherever the window sticks out, and no other pixel changes |
| `Compositor.Repaint` | pigOS/project/display-server/compositor.c:170-179 | every screen pixel is the fold of blending over exactly the visible windows that cover it, in slot order, and no visible window is pending afterwards |
| `Compositor.Render` | pigOS/project/display-server/compositor.c:156-180 | the screen is repainted if and only if a visible window is pending, is otherwise untouched, and no window is pending afterwards |
| `Compositor.Pointer.RouteInput` | pigOS/project/display-server/compositor.c:205-229 | a mouse event is used up; the cursor stays on the screen, the focus goes to the window on top under it, and where that window is opaque the screen shows it there |
| `TetrisBoard.ClearedBoard` | pigOS/shell/games/tetris.h:60-73 | clearing keeps the size of the board, leaves no full row and takes away exactly the cells of the full rows |
| `TetrisBoard.DropRowsAbove` | pigOS/shell/games/tetris.h:65-69 | the rows above move down by one and a blank one comes in |
| `TetrisBoard.ClearLines` | pigOS/shell/games/tetris.h:60-73 | the number of full rows, and the other rows in their order below that many blank ones |
| `Tetris.ShapeSound` | pigOS/shell/games/tetris.h:12-27 | every piece in every rotation is four different cells of a four by four box |
| `Tetris.PutCell` | pigOS/shell/games/tetris.h:51-58 | placing writes the cells of the piece and no other |
| `Tetris.PutFill` | pigOS/shell/games/tetris.h:51-58 | a piece that fits takes as many new cells as it has |
| `Tetris.PutFullCount` | pigOS/shell/games/tetris.h:51-73 | at most four rows become full at once |
| `Tetris.PlaceCells` | pigOS/shell/games/tetris.h:51-58 | the loop places the piece |
| `Tetris.LockSettles` | pigOS/shell/games/tetris.h:175-177 | locking keeps: no full row, cells on the board = 4 * pieces locked - 10 * lines |
| `Tetris.Game.IsFree` | pigOS/shell/games/tetris.h:41-49 | true exactly when every cell is inside the walls, above the floor and free |
| `Tetris.Game.Move` | pigOS/shell/games/tetris.h:151-164 | a key takes the piece to its target exactly when the piece fits there |
| `Tetris.LeftThenRight` | pigOS/shell/games/tetris.h:152-162 | left takes every cell of the piece one column to the left, and right then brings it back; it stays only if some cell there is taken |
| `Tetris.LandingIs` | pigOS/shell/games/tetris.h:156-160 | the place below which a piece that fell through free places cannot go is where it lands |
| `Tetris.Game.HardDrop` | pigOS/shell/games/tetris.h:156-160 | the piece falls through free places only and stops where it can fall no further |
| `Tetris.Game.Merge` | pigOS/shell/games/tetris.h:175-176 | the piece becomes part of the board and full rows go, four at most; cells stay accounted for |
| `Tetris.Game.Count` | pigOS/shell/games/tetris.h:177-180 | lines, score, level and speed |
| `Tetris.Game.NextPiece` | pigOS/shell/games/tetris.h:181-189 | the next piece comes in at the top, and the game is over exactly when it does not fit |
| `Tetris.Game.Lock` | pigOS/shell/games/tetris.h:174-190 | a piece is locked only where it cannot fall further; board, lines, score, level, speed and the next piece; the game is over exactly when the next piece does not fit |
| `Tetris.Game.AutoDrop` | pigOS/shell/games/tetris.h:167-192 | the timer, and that a piece is locked exactly when it is due and cannot fall |
| `Tetris.Game.Frame` | pigOS/shell/games/tetris.h:146-192 | one pass of the main loop keeps the invariants; lines and score never go back, by four lines at most |
| `Tetris.Play` | pigOS/shell/games/tetris.h:134-195 | for all keys and all random pieces: the game is the one the ticks make from the start; no full row, cells accounted for, and the piece in play overlaps nothing until the game is over |
| `VgaConsole.RemembersNext` | pigOS/drivers/vga/vga.h:178-182 | the ring of 100 lines goes on holding the latest ones |
| `VgaConsole.Console.SetAt` | pigOS/drivers/vga/vga.h:160-163 | one cell changes, and a place outside the screen is ignored |
| `VgaConsole.Console.Scroll` | pigOS/drivers/vga/vga.h:176-190 | the top line goes to the scrollback, the others move up, a blank line in the current colour comes in |
| `VgaConsole.Console.PutChar` | pigOS/drivers/vga/vga.h:245-255 | every character does to the console what it does to an endless roll of paper: newline, return, backspace, tab, wrapping |
| `VgaConsole.Console.Run` | pigOS/drivers/vga/vga.h:245-255 | for every run of characters and colour changes, history and screen together are the paper printed, the scrollback holds its latest lines, and the cursor is on the screen |
| `VgaConsole.Console.ScrollUp` | pigOS/drivers/vga/vga.h:193-206 | the oldest line of the scrollback, not the latest, comes in at the top, and the bottom line is lost |
| `VgaConsole.Console.ScrollAndBack` | pigOS/drivers/vga/vga.h:176-206 | scrolling back undoes a scroll if and only if the line that left equals the oldest line kept |
| `VgaConsole.GoneLetter` | pigOS/drivers/vga/vga.h:176-190 | a console from which a line with a letter has scrolled away |
| `VgaConsole.WrongLineBack` | pigOS/drivers/vga/vga.h:176-206 | there, scrolling and scrolling back shows another screen |
| `WebSocket.XorByteTwice` | pigOS/crypto/websocket.h:47-49 | exclusive or with the same byte twice is the identity |
| `WebSocket.MaskTwice` | pigOS/crypto/websocket.h:47-49 | masking is its own inverse, also on a part of the data |
| `WebSocket.FrameStart` | pigOS/crypto/websocket.h:54-72 | a frame starts with the final-fragment bit, no reserved bits and the opcode, then the mask bit and the length, in seven bits or in the two bytes behind |
| `WebSocket.DecodeFrame` | pigOS/crypto/websocket.h:51-134 | the receiver of a sent frame gets its opcode and as much payload as there is room for; what does not fit stays in the stream |
| `WebSocket.RoundTrip` | pigOS/crypto/websocket.h:51-134 | a frame comes back whole and exactly the frame is consumed if and only if there is room for its payload |
| `WebSocket.MaskData` | pigOS/crypto/websocket.h:47-49 | part of a buffer is masked in place, and the rest is kept |
| `WebSocket.PutHeader` | pigOS/crypto/websocket.h:54-72 | the header in its short or its long form |
| `WebSocket.SendFrame` | pigOS/crypto/websocket.h:51-77 | the bytes sent are the frame of sections 5.2 and 5.3 of RFC 6455 |
| `WebSocket.Transport.ReadInto` | pigOS/crypto/websocket.h:82-86 | short reads are repeated until all bytes have arrived, however the stream is cut |
| `WebSocket.ReadHeader` | pigOS/crypto/websocket.h:79-108 | opcode, mask bit and the length in its three forms |
| `WebSocket.ReadBody` | pigOS/crypto/websocket.h:109-127 | mask, clipped length, payload and unmasking |
| `WebSocket.RecvFrame` | pigOS/crypto/websocket.h:79-134 | on any stream and any cut of it the result is what the frame says; a ping is answered with a pong of its payload, if that can be sent |
| `WebSocket.ReceiveAll` | pigOS/crypto/websocket.h:79-134 | frames sent back to back are received in order and unchanged, however the stream is cut |
| `PathResolve.UpPrinted` | pigOS/kernel/pigfs.h:224-233 | going up from a canonical path drops its last name and stays at the root |
| `PathResolve.DownPrinted` | pigOS/kernel/pigfs.h:239-246 | going down adds a name |
| `PathResolve.WalkIsFold` | pigOS/kernel/pigfs.h:219-247 | the scan of a relative path is the fold of its components over the stack of names |
| `PathResolve.PrintedTidy` | pigOS/kernel/pigfs.h:189-202 | normalizing a canonical path changes nothing |
| `PathResolve.NormalizeTidy` | pigOS/kernel/pigfs.h:189-202 | normalizing leaves no empty component and no slash at the end if and only if the path does not end in two slashes or is slashes only |
| `PathResolve.SlashLeft` | pigOS/kernel/pigfs.h:189-202 | `/a//` keeps a slash at its end |
| `PathResolve.ResolveAbsolute` | pigOS/kernel/pigfs.h:204-251 | from any absolute directory, canonical or not, every path resolves to an absolute one |
| `PathResolve.ResolveIsFold` | pigOS/kernel/pigfs.h:204-251 | a relative path resolves to the fold of its components over a canonical directory, which never goes above the root, and the result is canonical |
| `PathResolve.ResolveTwice` | pigOS/kernel/pigfs.h:204-251 | resolving p and then q is resolving p/q |
| `PathResolve.ResolveElsewhere` | pigOS/kernel/pigfs.h:204-210 | `~` resolves to the root, and what an absolute path resolves to does not depend on the directory |
| `PathResolve.Buffer.CollapseText` | pigOS/kernel/pigfs.h:193-201 | the in-place loop makes one slash of every run of them |
| `PathResolve.Buffer.NormalizeText` | pigOS/kernel/pigfs.h:189-202 | one trailing slash is dropped, and then runs are collapsed |
| `PathResolve.Buffer.GoUp` | pigOS/kernel/pigfs.h:225-230 | the buffer is cut back to the parent directory |
| `PathResolve.Buffer.Component` | pigOS/kernel/pigfs.h:221-246 | one component and the slash behind it |
| `PathResolve.Buffer.WalkText` | pigOS/kernel/pigfs.h:211-247 | the loop over the path computes the scan when there is room |
| `PathResolve.Buffer.ResolveInto` | pigOS/kernel/pigfs.h:204-251 | the text stays inside the buffer, and is the resolved path whenever directory, path, a slash and the terminator fit together |

## Left out

- Sha256.HmacSha256: requires key and block-plus-message lengths below 2^32, because the source's length parameters have 32 bits.
- GlyphLoad.GetGlyphShape: requires well-formed contours and enough bytes, because the source reads without bounds checks; the glyph header and the table of contour ends are given as a list.
- GlyphOutline.Convert: requires coordinates of 16 bits, which loading always gives, and a second point in a contour that starts off the curve, because the source reads it.
- Charstring.RunCharstring: operands are reals, so rounding of floats is not modelled; the subroutine index is given as a list of byte strings; overflow of 32-bit coordinates is not modelled.
- CmapSearch.FindGlyphIndex: requires a conforming subtable, because the source reads without bounds checks; formats 0, 2 and 6 are not modelled.
- Bignum.PowMod: the number of words is a parameter, not 64, and the intermediate results are required to fit, because the source does not check its arrays; the 128-bit accumulator is an integer that is proved to stay below 2^128.
- Bignum.PowModAsCoded: requires room for the square of the power, doubled, or room for the numbers to grow, because the source writes outside its arrays otherwise.
- Bignum.Mod: requires twice a number that is not below the modulus to fit the result, because the source's doubling writes one word more otherwise.
- EdgeSort.SortEdges: edge keys are reals, so NaN is not modelled.
- BraceRange.ExpandRange: memory has no limit, so a range that ends after 2^63 words is expanded.
- BraceExpansion.ExpandIsDenotation: the trees have no ranges, of which BraceExpansion.RangeExpands says what they do in a word, and no escapes in double quotes inside braces, because the source doubles their backslash.
- CharstringPrint.ProgramDraws: requires numbers of the 16.16 format, at most 48 operands for an operator and ten nested calls, the limits of the format, and ends in the outermost program.
- ShellRoundTrip.RoundTrip: starts from tokens; the tokenizer is not modelled.
- WindowServer.Run: requires fewer than 2^31 - 2 events, because ids are returned as signed integers; sockets and shared memory are given by whether opening them succeeds.
- Compositor.MixInRange: is about reals, so rounding of floats is not modelled.
- Compositor.CompositeWindow: coordinates are integers, so `x + width` does not overflow for a window that a client has moved to the edge of 32 bits; the same goes for Compositor.FindAt.
- Compositor.Repaint: blending is over reals, so rounding of floats is not modelled; a window's pixels are given, not mapped from shared memory.
- Compositor.Render: drawing the cursor, timing and page flips are not part of it.
- RectPack.PackCalls: overflow of 32-bit coordinates is not modelled, and an array is given to one call only.
- Prefilter.FilterGlyph: the image is a two-dimensional array, so rows that overlap because of a short stride are not modelled.
- Tetris.Play: the random pieces and the keys are parameters, drawing is not modelled, and a row is copied as a whole.
- VgaConsole.Console.Run: the hardware cursor is not modelled.
- WebSocket.SendFrame: requires payloads below 65536 bytes, because the source shifts a 32-bit length by more than its width for longer ones; the mask is a parameter.
- WebSocket.RecvFrame: the answer to a ping of 65536 bytes or more is not stated, for the same reason.
- PathResolve.Buffer.ResolveInto: requires a directory that fits the buffer when the path is empty or a dot, because the source copies it without a bound then; what a path that does not fit is cut to is not stated.
- Absolute paths: `..` inside them is copied and not resolved, as in the source.
- Compound glyphs, curve flattening, the rasterizer, signed distance fields, kerning and the rest of the font library: floating-point geometry.
- AES, RSA, prime generation, TLS, JSON and ASN.1: not part of this model.
- The message transport and polling of the display server: input and output.
- Shell execution, completion, the line editor, drivers and the other games: input and output.
