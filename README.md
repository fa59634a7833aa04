# mandelbrot-c, modelled in Dafny

The repository holds three near-identical C programs that render the
Mandelbrot set, either as ASCII art or as plot data (one decimal number per
pixel, values separated by `", "`, one row per line):

- `mandelbrot.c`: the sequential program. Its plot-data writer formats
  each row into a 64 KiB buffer with a hand-written integer-to-text
  conversion and flushes the buffer when it runs full.
- `mandelbrot_complex.c`: the same program with a `double complex` kernel
  and a `printf` writer.
- `mandelbrot_pthread.c`: nine worker threads claim rows from one atomic
  cursor, write kernel values into a flat `width * height` grid, and
  `final_output` renders the grid through a row buffer.

This project models the escape-time kernel, the palette mapping, the
argument parser, every writer, and the threaded row claiming. It proves
what each of them computes.

| file | module | models |
|---|---|---|
| `kernel.dfy` | `Kernel` | `escape_time` in both forms (split `zr`/`zi`, complex `z`); the orbit and the escape count as functions |
| `palette.dfy` | `Palette` | `cnt2char` and the seven-symbol palette |
| `text.dfy` | `Text` | the hand-written itoa, `%d`, row and line layout, `strchr`, with parsers that read the text back |
| `options.dfy` | `Options` | the configuration record and `parse_arg` |
| `picture.dfy` | `Picture` | the pixel-to-point viewport mapping, the picture's rows, the ASCII and plot-data layouts |
| `sequential.dfy` | `Sequential` | `ascii_output` and the buffered `gptext_output` of `mandelbrot.c` |
| `complex_variant.dfy` | `ComplexVariant` | `ascii_output` and the `printf` `gptext_output` of `mandelbrot_complex.c` |
| `parallel.dfy` | `Parallel` | `thread_mandelbrot`'s row claiming and grid writes, the worker pool, `final_output` |

## Modelling choices

**Arithmetic and output**
- **Numbers.** C `double` is idealised as Dafny's exact `real`. This covers the kernel recurrence and the viewport mapping `ll_x + x * fwidth / width`, `ur_y - y * fheight / height`. `cnt2char`'s `(int)((double)value / max_iter * 6)` is taken as the integer quotient `value * 6 / max_iter`; `Palette.PaletteIndex` also states that this is the floor of the exact real ratio. C `int` is unbounded here.
- **Standard output** is a returned `string`. Every `putchar`, `fwrite` and `printf` appends to it.
- **Buffers are arrays.** The writers' buffers (`char buffer[65536]` and the `width * 6 + 64` row buffer) are Dafny arrays written through a `ptr` index. Their contracts state that the text flushed from them is exactly the unbuffered text.

**Argument parsing**
- **`parse_arg`** takes the argument as a `char` array, which it edits in place and restores. C updates `*config`; the model returns the new configuration instead.
- **`atoi` and `atof`** are passed in as arbitrary functions, so no result depends on what they compute.

**Threads**
- **`global_next_y`** becomes the field `nextY` of a `Run` object, so one object models one run; the C global is never reset.
- **Scheduling.** `Run.RunWorkers` repeatedly lets an arbitrarily chosen live worker take one turn of its loop until every worker has stopped. A turn is one `atomic_fetch_add` plus the computation of the rows it claimed. A worker has no state of its own besides the row it fetched, so a turn does the same whichever live worker takes it. The choice of worker only decides which workers are still live. The model thus covers every sequence of whole turns, up to which thread takes each one.
- **Writes stay inside the claim.** Each turn's contract states that grid cells outside its claimed rows keep their values. Together with `Parallel.ClaimsDisjoint`, this makes the workers' cell sets disjoint. The ghost log `writes` records the order of the writes.

**Behaviours kept exactly as the code has them**
- **A point that never escapes yields 0 for a non-negative cap.** `escape_time` returns `max_iter - iter`. With a cap `>= 0`, a point that is still bounded at the cap gives 0, and the origin gives 0 for every such cap. A negative cap runs no iteration and returns the cap itself.
- **The sequential plot-data writers emit `y = height` down to `y = 1`.** The first emitted row lies on the bottom edge `ll_y`, one row below the last grid row, and the top row `y = 0` is never emitted. The threaded writer instead emits grid rows `height - 1` down to `0`. `Parallel.PlotDataShift` states the exact relation between the two.

## Model

| member | source | states |
|---|---|---|
| Text.DigitChar | mandelbrot.c:137-145 | `'0' + d` is a digit character whose code lies exactly `d` above `'0'` |
| Text.Digits | mandelbrot_pthread.c:197-207 | the decimal digits of a value: at least one, all digits, no leading zero |
| Text.DigitsRoundTrip | mandelbrot.c:136-146 | reading the digits back gives the value again |
| Text.FormatIntChars | mandelbrot_complex.c:108 | `%d` text is non-empty, made of a sign and digits only, and so contains neither `,` nor a newline |
| Text.FormatIntRoundTrip | mandelbrot_complex.c:108 | `%d` text reads back to its value |
| Text.Itoa | mandelbrot_pthread.c:196-207 | for 0..999 the hand-written conversion produces one to three characters |
| Text.ItoaIsDecimal | mandelbrot.c:135-146 | for 0..999 the hand-written conversion is exactly `%d` |
| Text.PutItoa | mandelbrot_pthread.c:197-207 | writing a value at `ptr` appends its decimal text to the buffer contents, advancing `ptr` by one to three |
| Text.PutValue | mandelbrot.c:130-146 | a value is written as `", "` (except for the first of a row) followed by its decimal text, advancing `ptr` by at most five |
| Text.PutNext | mandelbrot.c:130-146 | storing one value after the text of the values before it leaves the text of one more value (flushed part plus buffer), and advances `ptr` by one to five |
| Text.IndexOf | mandelbrot.c:167 | `strchr`: the position of the first occurrence, or the length when there is none |
| Text.IndexOfAfterPrefix | mandelbrot.c:172-175 | after the `'='` is overwritten with NUL, the key read by `strcmp` ends exactly at that NUL |
| Text.JoinSnoc | mandelbrot_complex.c:101-108 | a row's text grows at its end: `", "` before every value except the first |
| Text.JoinLength | mandelbrot_pthread.c:172-173 | with values in 0..999 a row's text takes at most five characters per value |
| Text.JoinHasNoNewline | mandelbrot_complex.c:107-108 | a row's text contains no newline |
| Text.JoinRoundTrip | mandelbrot_complex.c:107-108 | splitting a row's text at `", "` gives back its values, and the text has no newline |
| Text.UnlinesSnoc | mandelbrot_complex.c:110 | each printed line is the text so far, the new line, and `'\n'` |
| Text.UnlinesRoundTrip | mandelbrot.c:154-157 | splitting the output at newlines gives back its lines when none contains a newline |
| Text.PlotRoundTrip | mandelbrot_complex.c:100-111 | a plot-data text reads back to its rows, line for line and value for value |
| Text.PlotTextPrefix | mandelbrot.c:120-158 | emitting one more row appends that row's text and `'\n'` |
| Palette.PaletteIndex | mandelbrot.c:44 | for `0 <= value <= max_iter`, `max_iter > 0`, the index lies in the palette and is the floor of `value / max_iter * 6` |
| Palette.Cnt2Char | mandelbrot.c:40-46 | the character is one of the seven palette symbols |
| Palette.PaletteEndpoints | mandelbrot_pthread.c:48-53 | value 0 maps to `'M'` and value `max_iter` maps to `' '` |
| Palette.PaletteMonotone | mandelbrot_complex.c:42-48 | a larger value never maps to an earlier palette symbol |
| Kernel.FirstEscapeFrom | mandelbrot.c:59-68 | from index k: the first orbit index below the cap that has escaped, else where the loop stops; no earlier index escaped |
| Kernel.EscapeCount | mandelbrot_pthread.c:67-76 | the loop counter at exit is at most the cap (0 for a non-positive cap), no orbit point before it escaped, and below the cap it points at an escaped orbit point |
| Kernel.EscapeCountUnique | mandelbrot.c:59-64 | those three properties determine the counter |
| Kernel.EscapeValue | mandelbrot.c:69 | `max_iter - iter` lies in `[0, max_iter]` for `max_iter >= 0`, and is `max_iter` itself for a negative cap |
| Kernel.StepKeepsCount | mandelbrot.c:59-67 | a test that does not break leaves the final escape count unchanged when the loop moves on to the next orbit point |
| Kernel.EscapedStopsCount | mandelbrot.c:62-64 | a test that breaks happens at exactly the escape count |
| Kernel.SplitBody | mandelbrot.c:60-67 | one pass of the loop body: it breaks exactly when the current point has escaped, and otherwise moves to the next orbit point |
| Kernel.EscapeTime | mandelbrot.c:55-70 | the split-form loop returns `max_iter` minus the escape count of the exact orbit, in `[0, max_iter]` |
| Kernel.ComplexStepIsSplitStep | mandelbrot_complex.c:66 | over exact arithmetic `z * z + c` is `(zr² - zi² + cr, 2·zr·zi + ci)` |
| Kernel.ComplexBody | mandelbrot_complex.c:63-66 | one pass of the complex loop body: it breaks exactly when z has escaped, otherwise z becomes the next orbit point |
| Kernel.EscapeTimeComplex | mandelbrot_complex.c:56-69 | the complex-typed loop returns the same value as the split form |
| Kernel.ZeroCapGivesZero | mandelbrot_pthread.c:67 | a cap of 0 runs no iteration and returns 0 |
| Kernel.FirstTestNeverEscapes | mandelbrot_pthread.c:64-77 | with a cap of at least 1 the first test sees z = 0 and cannot break, so the result is at most `max_iter - 1` |
| Kernel.OriginOrbitStaysAtZero | mandelbrot_pthread.c:73-75 | for c = 0 every orbit point is 0 |
| Kernel.OriginNeverEscapes | mandelbrot_complex.c:60-68 | c = 0 never escapes: the counter reaches the cap and the result is 0 |
| Kernel.CapIndependence | mandelbrot.c:59-69 | a smaller cap sees the same escape step, cut off at that cap |
| Options.SplitAtFirstEquals | mandelbrot_pthread.c:86-92 | there is no split exactly when the argument has no `'='`; otherwise the argument is key, `'='`, value, and the key has no `'='` |
| Options.IgnoredArguments | mandelbrot_complex.c:119-139 | an argument without `'='`, or with an unknown key, leaves the configuration unchanged |
| Options.OnlyNamedFieldChanges | mandelbrot_pthread.c:94-102 | each of the eight fields takes the converted value when its own key is named and keeps its old value otherwise |
| Options.ParseArg | mandelbrot.c:166-186 | the resulting configuration is the key-dispatch of the argument split at its first `'='`, and the argument is restored character for character |
| Picture.ViewportEdges | mandelbrot.c:82-83 | pixel (0, 0) is the corner (ll_x, ur_y), row `height` lies on ll_y, and the imaginary part strictly falls as y grows |
| Picture.PixelValue | mandelbrot_complex.c:81-85 | a pixel's value lies in `[0, max_iter]` |
| Picture.ComputePixel | mandelbrot.c:124-126 | mapping (x, y) into the viewport and running escape_time gives the pixel's value |
| Picture.RowValues | mandelbrot.c:123-126 | a row has `width` values |
| Picture.Rows | mandelbrot.c:80-86 | the picture has `height` rows |
| Picture.RowsOfConfigWithin | mandelbrot.c:84 | every value of the picture lies in `[0, max_iter]`, so cnt2char's precondition holds |
| Picture.AsciiRow | mandelbrot.c:81-86 | one palette character per value |
| Picture.AsciiLayout | mandelbrot.c:80-88 | ASCII output is exactly one line per row, each of `width` characters, the x-th being cnt2char of the x-th value |
| Picture.AsciiTextPrefix | mandelbrot_complex.c:79-89 | emitting one more ASCII row appends its characters and `'\n'` |
| Picture.SequentialPlotRows | mandelbrot.c:120 | the sequential plot data has `height` lines |
| Picture.Reversed | mandelbrot_pthread.c:183 | the k-th row emitted is row `height - 1 - k` |
| Picture.SequentialPlotIsShifted | mandelbrot_complex.c:100-103 | the sequential plot data starts with the row at y = height (on ll_y); its line k + 1 is line k of the bottom-first grid rows |
| Sequential.AsciiOutput | mandelbrot.c:76-89 | the output is the ASCII text of the picture's rows, top row first |
| Sequential.GptextOutput | mandelbrot.c:111-159 | the output is the plot text of rows y = height down to 1 |
| Sequential.GptextRow | mandelbrot.c:120-158 | within the 64 KiB buffer, the mid-row flushes plus the final write equal the row's values joined by `", "` followed by `'\n'` |
| ComplexVariant.AsciiOutput | mandelbrot_complex.c:75-90 | the output is the ASCII text of the picture's rows, top row first |
| ComplexVariant.GptextOutput | mandelbrot_complex.c:96-112 | the output is the plot text of rows y = height down to 1 |
| ComplexVariant.GptextRow | mandelbrot_complex.c:101-110 | the printed line is the row's values joined by `", "` then `'\n'` |
| Parallel.ClaimsDisjoint | mandelbrot_pthread.c:125-134 | the range of an earlier fetch ends where or before the range of a later fetch begins |
| Parallel.ClaimsCover | mandelbrot_pthread.c:125-135 | every row below the height is in the range of exactly one fetch, fetch `y / CHUNK_SIZE` |
| Parallel.ClaimsUpToCursorCover | mandelbrot_pthread.c:124-130 | once the cursor has reached the height, the fetched ranges cover `[0, height)` |
| Parallel.CellIndex | mandelbrot_pthread.c:142 | `y * width + x` lies in `[0, width * height)` and determines x and y |
| Parallel.CellOfPixel | mandelbrot_pthread.c:136-143 | index `y * width + x` lies inside the grid, and the value required there is pixel (x, y)'s value |
| Parallel.GridRow | mandelbrot_pthread.c:186 | a grid row has `width` cells |
| Parallel.GridRowOfPixels | mandelbrot_pthread.c:186-189 | a row of a fully computed grid is that row of the picture |
| Parallel.GridOfPixelsHasPictureRows | mandelbrot_pthread.c:136-143 | a fully computed grid, read row by row, is exactly the picture |
| Parallel.GridWithin | mandelbrot_pthread.c:189 | a grid of values in `[0, max_iter]` gives rows of values in that range |
| Parallel.Run.constructor | mandelbrot_pthread.c:246-247 | a fresh run: the grid has `width * height` cells, the cursor is 0, nothing has been written |
| Parallel.Run.ClaimAndCompute | mandelbrot_pthread.c:124-145 | one turn: the cursor grows by CHUNK_SIZE; the worker stops exactly when the fetched row is at or past the height, and then writes nothing; otherwise it claims `[start, min(start + CHUNK_SIZE, height))`, writes those rows, and leaves every other cell unchanged |
| Parallel.Run.ComputeRows | mandelbrot_pthread.c:136-144 | computing a claimed range extends the written prefix of the grid by exactly those rows' cells; cells outside `[yStart * width, yEnd * width)` keep their values |
| Parallel.Run.ComputeRow | mandelbrot_pthread.c:137-143 | one row: each of its cells is written once, in order, with its pixel's value; cells outside the row keep their values |
| Parallel.Run.StoreCell | mandelbrot_pthread.c:142 | the store extends the written prefix by cell `y * width + x`, holding pixel (x, y)'s value, and leaves every other cell unchanged |
| Parallel.Run.RunWorkers | mandelbrot_pthread.c:253-264 | under any schedule, once every worker has stopped: the claims cover every row, every grid cell has been written exactly once, and every cell holds its pixel's value |
| Parallel.ThreadedOutput | mandelbrot_pthread.c:246-266 | ASCII output is exactly the sequential program's ASCII output; plot data is the picture's rows bottom first |
| Parallel.PlotDataShift | mandelbrot.c:120-125 | sequential plot data equals the row on ll_y followed by the threaded plot data without its last line |
| Parallel.FinalOutput | mandelbrot_pthread.c:170-228 | the output is the plot text of the grid rows bottom first (png) or the ASCII text of the grid rows top first |
| Parallel.PlotFromGrid | mandelbrot_pthread.c:181-211 | plot-data branch: grid rows `height - 1` down to 0 |
| Parallel.AsciiFromGrid | mandelbrot_pthread.c:212-225 | ASCII branch: grid rows 0 to `height - 1`, each `width` palette characters and `'\n'` |
| Parallel.PlotRowFromGrid | mandelbrot_pthread.c:184-210 | a row's buffer content is its values joined by `", "` then `'\n'`, at most `5 * width + 1` characters, so it never passes the `width * 6 + 64` buffer |
| Parallel.PlotRowAt | mandelbrot_pthread.c:186-210 | the buffer holds the slice `row_start[0 .. width)` joined by `", "` then `'\n'`, at most `5 * width + 1` characters |
| Parallel.AsciiRowFromGrid | mandelbrot_pthread.c:215-223 | a row's buffer content is its palette characters then `'\n'` |

## Left out

- IEEE-754 doubles: rounding, overflow to infinity, NaN. The kernel, the viewport mapping and cnt2char's division are exact over `real`, so no result is bit-equal with the compiled program.
- 32-bit `int` wrap-around. This affects `width * height`, `y * width + x`, the row buffer size and the cursor, all unbounded here.
- `atoi` and `atof` are library conversions and are parameters of the model.
- `main`'s defaults (100 × 75, viewport (-1.2, 0.20)–(-1.0, 0.35), cap 255) and its loop over the arguments are glue and are not modelled.
- Warnings to `stderr`, `malloc` failure with `perror` and `exit`, and `free` are left out. They are error reporting and memory management around the modelled computation.
- The commented-out `gptext_output` (mandelbrot.c) and `final_output` (mandelbrot_pthread.c) are dead code.
- `pthread_create`, `pthread_join` and the atomic instruction itself are not modelled. The model interleaves whole worker turns, not the steps inside one.
- Parallel.Run.ClaimAndCompute: a worker's fetch-and-add and the computation of its rows are one step. Other workers' writes can interleave with these in C, but every worker writes a disjoint set of cells, so this does not change the final grid.
- Parallel.Run.RunWorkers: it proves every worker stops and that the cursor ends at or past the height. It does not state the cursor's exact final value, one past the height per worker.
- Out-of-contract inputs are excluded by preconditions:
  - Sequential.GptextOutput requires a cap in 0..999, since the hand-written conversion emits non-digits above 999. Parallel.FinalOutput and Parallel.ThreadedOutput require this only in plot-data mode (`png` set); their ASCII branch accepts any positive cap.
  - The ASCII writers require a positive cap, since cnt2char divides by it.
  - Every writer requires non-negative sizes.
