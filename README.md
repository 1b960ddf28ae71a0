# Class-label loading of the GoogLeNet classifier

The program classifies one image with a pre-trained GoogLeNet network through
OpenCV's DNN module. It then prints the winning class id together with its
human-readable name. Nearly all of its work is foreign calls into OpenCV. The
logic it owns is the label-file parser `readClassNames` and the bounds-checked
lookup `classNames.at(classId)` that turns the winning index into a name. This
project models those two and proves what they compute.

The label file (`synset_words.txt`) holds one label per line, usually
written as `<token> <name>`, for example `n04266014 space shuttle`.
`readClassNames` treats it as follows:

- the file is read with `std::getline` until the stream reports end of file;
- empty lines are skipped;
- each other line keeps `name.substr(name.find(' ') + 1)`.

That expression is everything after the first space. When the line has no
space, `find` returns `npos`, and `npos + 1` wraps round to 0, so the whole
line is kept.

Modules:

- `Results` (results.dfy): `Option`, `Result`, and the two failures. The
  failures are an unopenable label file, which the program ends with
  `exit(-1)`, and `std::out_of_range`.
- `CppStd` (cppstd.dfy): the parts of 64-bit libstdc++ the parser depends on.
  These are size_t arithmetic modulo 2^64, `npos`, `std::string::find`,
  `std::string::substr`, the conversion of an `int` argument to `size_t`, and
  `std::vector::at`.
- `LabelSpec` (labelspec.dfy): what a label file means, as pure functions.
  `Lines` splits the text at every `'\n'` the way successive `getline` calls
  see it. `NonEmpty` drops empty lines. `Label` keeps what follows the first
  space. `ClassNames` composes the three. The module also holds the lemmas
  about these functions.
- `LabelLoader` (labelloader.dfy): the imperative code. `LineStream` models
  the opened `std::ifstream`: its read position, eofbit and failbit, and
  `getline` extracting characters one by one. `ReadClassNames` is the
  `while (!fp.eof())` loop that appends to the table, proved equal to
  `ClassNames`. `ClassNameAt` is `classNames.at(classId)`. `BestClassName` is
  the two source lines that load the table and look up the winning class.

Behaviour the model pins down:

- The last `getline` after a final `'\n'` extracts nothing, and eofbit and
  failbit are set. The empty string it leaves is skipped, so a trailing newline
  changes nothing (`TrailingNewlineIgnored`).
- The text is the file's bytes, one `char` per byte. All length bounds are
  therefore byte counts. Only the bytes `'\n'` (10) and `' '` (32) are examined,
  so treating bytes as characters changes nothing.
- Only `'\n'` separates lines. On the POSIX platform of libstdc++, a stream
  does no newline translation, so a `'\r'` from a CRLF file stays at the end of
  its label. A text-mode stream on Windows would turn CRLF into LF and drop
  that `'\r'`; that platform is not modelled.
- The lookup converts the `int` class id to `size_t`. A negative id therefore
  becomes an index near 2^64 and is rejected like any other out-of-range index.

## Model

| member | source | states |
|---|---|---|
| CppStd.SizeAdd | CV_DNN_Application/Main.cpp:52 | the size_t `+` behind `npos + 1`: the plain sum when it is below 2^64, otherwise the sum minus 2^64 |
| CppStd.ToSize | CV_DNN_Application/Main.cpp:152 | passing the `int` `classId` to `at` converts it to size_t: a non-negative id is unchanged, a negative one becomes id + 2^64 |
| CppStd.Substr | CV_DNN_Application/Main.cpp:52 | `std::string::substr(pos)` succeeds exactly when pos is at most the size, and then gives the suffix that follows the first pos characters; otherwise it throws `out_of_range` |
| CppStd.VectorAt | CV_DNN_Application/Main.cpp:152 | `std::vector::at(n)` succeeds exactly when n is below the size, and then gives element n; otherwise it throws `out_of_range` |
| CppStd.Find | CV_DNN_Application/Main.cpp:52 | `name.find(' ')` gives the index of the first space, with no space before it, or `npos` exactly when the line holds no space |
| LabelSpec.Lines | CV_DNN_Application/Main.cpp:47-50 | the lines successive `getline` calls deliver: at least one, none containing the `'\n'` delimiter |
| LabelSpec.LinesCount | CV_DNN_Application/Main.cpp:47-50 | a text with n newlines is read as n + 1 lines |
| LabelSpec.JoinLines | CV_DNN_Application/Main.cpp:47-50 | gluing the lines back together with `'\n'` gives the text again, so reading loses no character except the delimiters |
| LabelSpec.LinesJoin | CV_DNN_Application/Main.cpp:47-50 | conversely, lines without `'\n'` glued together are read back as exactly those lines |
| LabelSpec.LinesUntilNewline | CV_DNN_Application/Main.cpp:50 | the first line is everything up to the first `'\n'` (or the whole text), and the later lines are those of the text after that `'\n'` |
| LabelSpec.LinesOfLine | CV_DNN_Application/Main.cpp:50 | a text without `'\n'` is exactly one line |
| LabelSpec.LinesConcat | CV_DNN_Application/Main.cpp:47-50 | the lines of `a + "\n" + b` are the lines of `a` followed by the lines of `b` |
| LabelSpec.NonEmpty | CV_DNN_Application/Main.cpp:51 | the kept lines are all non-empty, each is one of the lines read, and there are no more of them than lines |
| LabelSpec.NonEmptyConcat | CV_DNN_Application/Main.cpp:51 | filtering out empty lines distributes over concatenation |
| LabelSpec.NonEmptyIndices | CV_DNN_Application/Main.cpp:51 | the positions of the non-empty lines, strictly increasing, each holding a non-empty line |
| LabelSpec.NonEmptyIndicesComplete | CV_DNN_Application/Main.cpp:51 | every non-empty line's position is among them |
| LabelSpec.NonEmptyAt | CV_DNN_Application/Main.cpp:51-52 | the k-th kept line is the line at the k-th non-empty position, and there are as many kept lines as non-empty positions |
| LabelSpec.AfterFirstSpace | CV_DNN_Application/Main.cpp:52 | there is a rest exactly when the line holds a space, and the rest is what follows the first space, with no space before it |
| LabelSpec.Label | CV_DNN_Application/Main.cpp:52 | a label is always a suffix of its line, strictly shorter exactly when the line holds a space, and the whole line when it has none |
| LabelSpec.LabelAfterToken | CV_DNN_Application/Main.cpp:52 | a line `token + " " + rest`, with no space in the token, gives exactly `rest`, later spaces included |
| LabelSpec.SpaceShuttleLabel | CV_DNN_Application/Main.cpp:52 | `"n04266014 space shuttle"` gives `"space shuttle"` |
| LabelSpec.Labels | CV_DNN_Application/Main.cpp:52 | one label per line, in order: entry i is the label of line i |
| LabelSpec.LabelsConcat | CV_DNN_Application/Main.cpp:52 | labelling distributes over concatenation |
| LabelSpec.ClassNames | CV_DNN_Application/Main.cpp:46-53 | the table a label file gives: one entry per non-empty line, and entry i is the label of the i-th non-empty line |
| LabelSpec.ClassNamesStep | CV_DNN_Application/Main.cpp:49-53 | reading one line adds nothing when it is empty and its label otherwise, in front of what the remaining lines give |
| LabelSpec.ClassNamesOrder | CV_DNN_Application/Main.cpp:46-53 | the table has one entry per non-empty line, and entry k is the label of the k-th non-empty line |
| LabelSpec.ClassNamesConcat | CV_DNN_Application/Main.cpp:46-53 | the table of `a + "\n" + b` is the table of `a` followed by the table of `b` |
| LabelSpec.EmptyLineSkipped | CV_DNN_Application/Main.cpp:51 | an extra empty line between two parts of a file leaves the table unchanged |
| LabelSpec.TrailingNewlineIgnored | CV_DNN_Application/Main.cpp:47-51 | a final newline leaves the table unchanged: the empty read that follows it is skipped |
| LabelSpec.ClassNamesOfLine | CV_DNN_Application/Main.cpp:51-52 | a file that is one non-empty line without newline gives a one-entry table holding that line's label |
| LabelSpec.EmptyLabelCounted | CV_DNN_Application/Main.cpp:51-52 | a line whose only space is its last character (`"n01 "`, or `" "` for the empty token) gives an empty label that is still an entry |
| LabelSpec.ClassNamesBound | CV_DNN_Application/Main.cpp:46-53 | the table is never longer than the file's text |
| LabelLoader.LineAt | CV_DNN_Application/Main.cpp:50 | the characters from the read position up to the next `'\n'` or the end of the text are the next line, and what follows the `'\n'` holds the remaining lines |
| LabelLoader.LineStream.constructor | CV_DNN_Application/Main.cpp:39 | an opened stream is at the start of the file with neither eofbit nor failbit set |
| LabelLoader.LineStream.GetLine | CV_DNN_Application/Main.cpp:50 | `getline` on a stream that is not good sets failbit and gives `""`. Otherwise it gives the next line and sets eofbit exactly when that was the last line, failbit exactly when nothing was left. Unless at the end, it advances past the `'\n'` with the remaining lines intact |
| LabelLoader.LabelOf | CV_DNN_Application/Main.cpp:52 | `name.substr(name.find(' ') + 1)`, with the size_t wrap of `npos + 1`, never throws and equals `Label(name)` |
| LabelLoader.ReadStep | CV_DNN_Application/Main.cpp:47-53 | one pass of the reading loop keeps "table so far + table of the rest" equal to the whole table, and after the last line the table is complete |
| LabelLoader.ReadClassNames | CV_DNN_Application/Main.cpp:37-57 | an unopenable file fails with an error naming the file. Otherwise the loop returns exactly `ClassNames` of the file's text |
| LabelLoader.ClassNameAt | CV_DNN_Application/Main.cpp:152 | `classNames.at(classId)` succeeds exactly when `classId` is at least 0 and below the size of the table, and then gives entry `classId`; otherwise it throws `out_of_range`, including for negative ids converted to size_t |
| LabelLoader.BestClassName | CV_DNN_Application/Main.cpp:151-152 | the name printed for the best class: the error for a missing `synset_words.txt`, else entry `classId` of the file's table when it exists, else `out_of_range` |

## Left out

- Opening the file is not modelled: the file is passed in as its text, or `None` when it cannot be opened. The `exit(-1)` and the message on stderr become the `LabelFileNotFound(filename)` error.
- Reading from the disk is not modelled. `LineStream` holds the whole text, and each `GetLine` call is one atomic step.
- ReadClassNames: its precondition excludes texts of more than `2^63 - 1` bytes (`MAX_SIZE`, PTRDIFF_MAX). `ClassNameAt` has the same bound on the table. Nothing else in the model limits the length of a single line.
- GetLine: the model leaves out the two ways `std::getline` sets failbit without eofbit. The first is a line longer than the string's `max_size()`, about 2^62 bytes in libstdc++. The second is a read error that sets badbit. After either one, every later `getline` fails in its sentry and eofbit is never set, so the source's `while (!fp.eof())` loop (Main.cpp:47) would not end. This is a reading of libstdc++'s `getline`, not an observed behaviour. The loop invariant `fp.fail ==> fp.eof` of `ReadClassNames` holds only because these paths are absent.
- Command-line parsing with `cv::CommandLineParser` (Main.cpp:64-83) is left out. This includes the help flag, which prints usage but does not stop the run. It is a library wrapper with no logic of its own.
- Several calls into OpenCV are left out because their behaviour is not visible here: `readNetFromCaffe` and its error report, `setPreferableTarget`, `imread` with its failure exit, `blobFromImage`, `setInput` and `forward`. The same goes for the inference loop that repeats the forward pass ten more times (Main.cpp:88-140).
- `reshape` and the arg-max by `cv::minMaxLoc` (Main.cpp:143-148) are library calls over float tensors. The class id is therefore a parameter of `BestClassName`, and nothing is assumed about how ties are broken.
- Printing is left out: the two output lines, and the `classProb * 100` probability, which is floating-point formatting (Main.cpp:152-153). `BestClassName` gives the name that is printed, or the error.
