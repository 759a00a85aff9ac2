# Annotation parser model

A Dafny model of `Minime\Annotations\Parser`, the core of a PHP library
that reads annotations such as `@cache 60` or `@var integer 3` out of doc
block comments. Parsing a doc block runs four stages, each a module here:

- **Normalizer** (`normalizer.dfy`) is the decoration stripper. It models
  the multi-line `preg_replace` that deletes a line's leading `*`, the
  comment opener and the comment closer. The model is the scan the regex
  engine performs: at each position the alternatives are tried in order,
  and `^` holds after a line feed of the original text.
- **Extractor** (`extractor.dfy`) models the `preg_match_all` of the
  annotation pattern. It has three parts: a lookbehind for the identifier
  character, a name, and a value that runs to the first whitespace
  character followed by the identifier. It is proved equal to a
  declarative description: the leftmost, non-overlapping, complete set of
  matches.
- **ValueParser** (`value_parser.dfy`) models `parseValue` and the
  `$types` table. It trims the value. A blank value is the implicit
  `true`. An explicit type symbol followed by whitespace selects a
  handler. Anything else goes to the Dynamic handler.
- **Aggregator** (`aggregator.dfy`) files each value under its sanitised
  name, keeping occurrence order and first-seen key order, then collapses
  one-element lists to their element.
- **Parser** (`parser.dfy`) composes the four stages, for either order
  of the decoration alternatives (see Findings).
- **Words** (`words.dfy`) is a concrete rule set: the identifier `@`,
  names of ASCII letters, digits and `_`, keys used as written. Under it
  annotations written one per line are extracted back exactly, which
  turns the parse of such a text into a statement about the annotations
  alone.
- **Samples** (`samples.dfy`) holds concrete doc blocks parsed end to end
  under that rule set.

`text.dfy` holds the whitespace class and `trim`; `options.dfy` holds `Option`.

The rules object is a parameter (`Extractor.Rules`) with three fields:
- the identifier character;
- the name pattern, given as a function returning the end of the name it
  matches at a position;
- the key sanitiser.

The type handlers are not modelled. A value that reaches a handler is
represented by `Handled(kind, input, key)`: the handler class, the text
it receives, and the annotation name passed along with it.

Three behaviours of the code shape the model:
- **A value ends only at whitespace followed by the identifier.** An
  identifier glued to the preceding text does not end the value, so
  `@a x@y` has one annotation.
- **A row's leading `*` is required by the pattern.** The line-start
  alternative deletes whitespace only together with a `*`; a row without
  one keeps its leading whitespace.
- **Values are parsed when filed.** Each value is parsed as it is filed,
  before the grouping, and the model groups parsed values.

## Model

| member | source | states |
|---|---|---|
| Text.Trim | src/Parser.php:122 | the result is trimmed and is the input with whitespace-only padding removed on both sides |
| Text.TrimOfPadded | src/Parser.php:122 | trimming a trimmed text padded with whitespace gives back exactly that text |
| Text.TrimEmpty | src/Parser.php:122-123 | trimming gives the empty text exactly when the input is all whitespace |
| Text.TrimIdempotent | src/Parser.php:122 | trimming twice is trimming once |
| ValueParser.Types | src/Parser.php:38-45 | the type table: `integer`, `string`, `float`, `json`, `eval` and `->`, in that order, with their handlers |
| ValueParser.MatchTypeFrom | src/Parser.php:70 | the type pattern's alternation selects the first table entry whose symbol, followed by whitespace, starts the text, and None exactly when no symbol does |
| ValueParser.AtMostOneType | src/Parser.php:38-45 | a text declares at most one of the six symbols, so the order of the alternation never matters |
| ValueParser.ExplicitNeverDynamic | src/Parser.php:38-45 | no table entry selects the Dynamic handler |
| ValueParser.SymbolsStartSolid | src/Parser.php:38-45 | every symbol is non-empty and starts with a non-whitespace character |
| ValueParser.ParseValue | src/Parser.php:120-138 | implicit true exactly for a blank value; otherwise a handler receives a non-empty trimmed input and the name; Dynamic exactly when no symbol is declared, with the whole trimmed text; otherwise the declared symbol's handler, with the symbol cut off and the rest trimmed |
| ValueParser.ExplicitType | src/Parser.php:127-133 | a declared symbol sends the value to that symbol's handler, with exactly the symbol's length cut off and the rest trimmed |
| ValueParser.Untyped | src/Parser.php:126-137 | a non-blank value declaring no symbol goes whole, trimmed, to the Dynamic handler |
| ValueParser.UntypedPadded | src/Parser.php:122-137 | whitespace around an untyped value never reaches the Dynamic handler |
| ValueParser.TypedRoundTrip | src/Parser.php:120-138 | writing symbol, whitespace and argument, with any padding, and parsing it hands exactly the argument to the symbol's handler |
| ValueParser.BareSymbolUntyped | src/Parser.php:70 | a symbol with nothing after it is not a type declaration |
| ValueParser.GluedSymbolUntyped | src/Parser.php:70 | a symbol glued to its argument is not a type declaration |
| ValueParser.CapitalisedSymbolUntyped | src/Parser.php:70 | symbols are matched case-sensitively |
| Normalizer.SpaceRun | src/Parser.php:69 | the greedy `\s*` run: every character it covers is whitespace and the character after it is not |
| Normalizer.SpaceRunIs | src/Parser.php:69 | the greedy whitespace run is exactly the whitespace prefix that stops at a non-whitespace character |
| Normalizer.DecorationAt | src/Parser.php:69 | a decoration found is non-empty and inside the text; when none is found no closer starts here |
| Normalizer.OpenerDeleted | src/Parser.php:69 | an opener, with a second `*` when there is one, is deleted wherever it stands, and scanning resumes away from a line start |
| Normalizer.CloserDeleted | src/Parser.php:69 | away from a line start, a closer and the whitespace before it are deleted, in either order |
| Normalizer.LineStarDeleted | src/Parser.php:69 | as written, at a line start a whitespace run, a `*` and one whitespace character are deleted; a deleted line feed leaves a line start behind |
| Normalizer.LineBareStarDeleted | src/Parser.php:69 | as written, at a line start a whitespace run and a `*` not followed by whitespace are deleted, even when a `/` follows |
| Normalizer.KeepSolid | src/Parser.php:69 | as written, a character that is not whitespace, not `*` and does not begin `/*` starts no decoration: it is kept and scanning goes on after it |
| Normalizer.KeepSpace | src/Parser.php:69 | away from a line start, a whitespace character that begins no `\s*\*\/` closer is kept, in either order |
| Normalizer.KeepStar | src/Parser.php:69 | as written, a `*` away from a line start and not followed by `/` is kept |
| Normalizer.DecorationHasStar | src/Parser.php:69 | every alternative of the pattern needs a `*` |
| Normalizer.StripScan | src/Parser.php:69 | the replacement only deletes, so the result is never longer |
| Normalizer.StripAsWritten | src/Parser.php:69 | the replacement with the alternatives in the written order only deletes characters: the result is a subsequence of the input, and text without `*` is unchanged |
| Normalizer.StripCloserFirst | src/Parser.php:69 | the replacement with the closer tried first only deletes characters: the result is a subsequence of the input, and text without `*` is unchanged |
| Normalizer.StripScanSubseq | src/Parser.php:69 | the replacement's result is the input with some characters deleted and the rest kept in order |
| Normalizer.StripScanKeepsChars | src/Parser.php:69 | every character of the result comes from the input |
| Normalizer.StripScanPlain | src/Parser.php:69 | text without `*` is left unchanged |
| Normalizer.StripPlain | src/Parser.php:69 | already plain text is unchanged by both orders |
| Normalizer.OpenerStrip | src/Parser.php:69 | the opener at the start of the doc block is deleted |
| Normalizer.RowLeadStrip | src/Parser.php:69 | away from a line start, a row's ` * ` is deleted and its line feed kept |
| Normalizer.BlankRowStrip | src/Parser.php:69 | a blank ` *` row loses its line feed and leaves a line start behind it |
| Normalizer.CloserStrip | src/Parser.php:69 | a closer on a row of its own vanishes with the line feed before it |
| Normalizer.CopyLine | src/Parser.php:69 | a plain line is kept character by character when a decorated row follows it, or the closer follows it and the line does not end in whitespace |
| Normalizer.RowsStrip | src/Parser.php:69 | rows followed by the closer strip back to their lines |
| Normalizer.StripDecorated | src/Parser.php:69 | a conventional doc block strips back to its lines, in either order |
| Normalizer.ClosingVanishes | src/Parser.php:69 | with the closer first, a closer and its leading whitespace vanish wherever they stand |
| Normalizer.CloserAtLineStart | src/Parser.php:69 | as written, a closer at a line start keeps its `/`; with the closer first nothing remains |
| Normalizer.StrayCloserSlash | src/Parser.php:69 | as written, a blank ` *` row before the closer leaves a `/`; with the closer first it does not |
| Extractor.NameAt | src/Parser.php:73-74 | a name match is non-empty, inside the text, and exactly what the name pattern reports |
| Extractor.ValueEnd | src/Parser.php:75 | the value ends at the first whitespace-then-identifier pair or at the end of the text, with no such pair before it |
| Extractor.ValueEndIs | src/Parser.php:75 | a position with no whitespace-then-identifier pair before it, at such a pair or at the end of the text, is where the value ends |
| Extractor.MatchAt | src/Parser.php:73-75 | a match starts exactly where the identifier precedes a name the name pattern accepts; its name is the pattern's match and its value runs to the first whitespace-then-identifier pair or the end |
| Extractor.Scan | src/Parser.php:105 | the `preg_match_all` search from the start of the text finds genuine matches, in order and without overlap |
| Extractor.ScanFrom | src/Parser.php:105 | every span found is a genuine match from the start position on, and the spans are in order without overlap |
| Extractor.Extract | src/Parser.php:105-106 | one occurrence per span; names are non-empty and no value contains whitespace followed by the identifier |
| Extractor.OccurrenceOf | src/Parser.php:106-107 | the occurrence read from one match has a non-empty name and a value with no whitespace-then-identifier pair in it |
| Extractor.ScanIsLeftmost | src/Parser.php:105 | the search result is leftmost, non-overlapping and misses no match start |
| Extractor.LeftmostIsScan | src/Parser.php:105 | any leftmost, non-overlapping, complete set of matches is the search result |
| Extractor.ScanCharacterised | src/Parser.php:105 | a set of spans is leftmost, non-overlapping and complete exactly when it is the search result |
| Extractor.ScanEmpty | src/Parser.php:105 | nothing is found exactly when no match starts anywhere |
| Extractor.NoIdentifierNoAnnotation | src/Parser.php:73-75 | text without the identifier has no annotations |
| Extractor.OccurrenceShape | src/Parser.php:73-75 | each occurrence's name follows an identifier and is what the name pattern matched; its value ends at a stop or the end of the text |
| Samples.EmbeddedIdentifier | src/Parser.php:75 | in `@a x@y`, a line feed and `z`, a match could start after the `@` glued to `x`, but that `@` does not end the value, so the only annotation is `a` with the value running to the end of the text |
| Aggregator.Add | src/Parser.php:107 | appending puts the value at the end of its key's list and adds at most one key |
| Aggregator.AddKeys | src/Parser.php:107 | appending keeps a present key in place and adds a new key last |
| Aggregator.AddLookup | src/Parser.php:107 | appending changes only the list under its key, which gains the value at the end |
| Aggregator.AddNonEmpty | src/Parser.php:107 | appending never leaves an empty list |
| Aggregator.Filed | src/Parser.php:106-107 | the filing rule: each occurrence becomes its sanitised name and the parse of its value, with the name as written passed to the handler |
| Aggregator.Group | src/Parser.php:104-108 | grouped keys are distinct and every list is non-empty |
| Aggregator.GroupLookup | src/Parser.php:104-108 | the list under every key is exactly the values filed under it, in occurrence order |
| Aggregator.ValuesForSound | src/Parser.php:104-108 | every value filed under a key comes from an item with that key |
| Aggregator.LookupAt | src/Parser.php:104-108 | with distinct keys, looking up an entry's own key finds that entry's list |
| Aggregator.GroupSound | src/Parser.php:104-108 | every value in a grouped list comes from an item filed under that list's key |
| Aggregator.GroupKeys | src/Parser.php:104-108 | the keys are the distinct keys of the occurrences, in order of first occurrence |
| Aggregator.GroupSingle | src/Parser.php:104-108 | a single occurrence yields a single one-element list |
| Aggregator.GroupRepeated | src/Parser.php:104-108 | a key given twice and then another key group into a two-value list in document order followed by a one-value list |
| Aggregator.Collapse | src/Parser.php:86-91 | keys and their order are kept, each slot expands back to its list, and a slot is a bare value exactly when its list has one element |
| Aggregator.CollapseSingle | src/Parser.php:86-91 | a one-element list collapses to its element |
| Aggregator.CollapseRepeated | src/Parser.php:86-91 | a two-value list stays a list and a one-value list becomes its value, keys in order |
| Aggregator.GroupManyHasTwo | src/Parser.php:86-91 | after grouping, every list left as a list has at least two values |
| Parser.Assemble | src/Parser.php:85-111 | `parseAnnotations` with the collapse, on already stripped text, gives distinct keys and no empty slot |
| Parser.ParseWith | src/Parser.php:83-94 | the parse has distinct keys and every slot stands for at least one value |
| Parser.ParseAsWritten | src/Parser.php:83-94 | the parse with the decoration stripped as written has distinct keys and no empty slot |
| Parser.ParseCloserFirst | src/Parser.php:83-94 | the parse with the closer tried first has distinct keys and no empty slot |
| Parser.CollapseKeys | src/Parser.php:86-91 | the collapse keeps the key sequence |
| Parser.FindCollapse | src/Parser.php:86-91 | after the collapse a key is absent exactly when its list was empty; otherwise its slot expands to the list and is a bare value exactly when the list has one element |
| Parser.ParseLookup | src/Parser.php:83-111 | under each key the parse holds nothing when no annotation is filed there; otherwise it holds exactly the parsed values of those annotations in document order, bare when there is one |
| Parser.ParseKeys | src/Parser.php:83-111 | the parse's keys are the sanitised names, each once, in order of first occurrence |
| Parser.ParseSound | src/Parser.php:83-111 | every value in the parse is the parse of an annotation of the stripped text whose sanitised name is its key, with the name as written passed along |
| Parser.HandlerGetsRawName | src/Parser.php:107 | a handler receives the name as written, and its sanitised form is the key the value is filed under |
| Parser.NoIdentifierNothing | src/Parser.php:69-94 | a doc block without the identifier character parses to an empty array |
| Parser.EmptyParse | src/Parser.php:83-111 | the parse is an empty array exactly when the search finds no annotation anywhere in the stripped text, in both directions |
| Parser.DecoratedBlock | src/Parser.php:69-94 | a conventional doc block parses like its plain lines, in either order |
| Parser.SingleAnnotation | src/Parser.php:83-111 | a text with one annotation parses to its key bound to its bare parsed value |
| Words.WordEnd | src/Parser.php:74 | the name run ends at the first character that is not a letter, digit or `_`, or at the end of the text |
| Words.WordEndIs | src/Parser.php:74 | a position preceded only by name characters and followed by none is where the name run ends |
| Words.ScanFromShift | src/Parser.php:73-75 | past the first character of a text, what the pattern finds does not depend on what is written before that text: the same spans, moved |
| Words.ExtractCons | src/Parser.php:105-106 | when the spans of a text are one span then those of a suffix moved, the annotations are that span's annotation then those of the suffix |
| Words.RenderRoundTrip | src/Parser.php:73-106 | annotations with word names and values free of the identifier that do not continue the name, written one per line, are extracted back exactly, in order |
| Samples.RenderedParse | src/Parser.php:69-111 | annotations written one per line with no `*` parse to exactly those annotations filed and collapsed, under either order |
| Samples.CountExampleIn | src/Parser.php:69-111 | `@count integer 3`, `@count integer 5` and `@name hello` on three lines give, under either order, `count` the two integers as a list in document order and `name` the bare Dynamic value `hello` |
| Samples.CountExample | src/Parser.php:69-111 | the parse as written of those three lines is that array, and the closer-first parse agrees with it |
| Samples.StrayDocStrip | src/Parser.php:69 | the doc block with a blank ` *` row before the closer strips to its line followed by what the closer row leaves |
| Samples.FooScan | src/Parser.php:73-75 | in `\n@foo\n/` and in `\n@foo\n`, the one annotation is `foo`, with the value `\n/` or `\n` |
| Samples.StrayCloserAsWritten | src/Parser.php:69-94 | as written, `@foo` before a blank row and the closer gets the value `/` |
| Samples.StrayCloserFixed | src/Parser.php:69-94 | with the closer tried first, the same `@foo` is the implicit `true` |

## Left out

- The type handlers (`Minime\Annotations\Types\*`) are represented only by which handler is called and with what. Their conversions, JSON decoding, `eval` and object construction are not modelled. A value is modelled as the call the parser makes.
- The rules object's own implementation is a parameter: the name regex is a function returning the end of its match, and `sanitizeKey` is any string function.
- The library's own rules class is not part of this model. `Words` is an illustrative rule set of the usual shape, used for the round trip and the examples; it is not claimed to be the library's default.
- Exceptions thrown by handlers (`ParserException`) are not modelled, because the handlers are outside the model.
- PHP converts decimal-integer string keys to integer keys. This conversion is injective, so grouping is unchanged, and it is not modelled.
- Text.Trim: the model uses the regex whitespace class (space, tab, line feed, vertical tab, form feed, carriage return) for PHP's `trim`. PHP's `trim` also strips NUL and does not strip form feed.
- Normalizer.StripScan: its own contract only says the result is never longer. What the replacement deletes is stated by OpenerDeleted, CloserDeleted, LineStarDeleted, LineBareStarDeleted, KeepSolid, KeepSpace, KeepStar, StripDecorated, StripScanPlain, ClosingVanishes and the concrete doc blocks instead.
- Normalizer.DecorationAt: its own contract only bounds the decoration found. Which text each alternative deletes is stated one step at a time by OpenerDeleted, CloserDeleted, LineStarDeleted and LineBareStarDeleted.
- Normalizer.StripAsWritten: its own contract says the result is a subsequence of the input, not which characters are deleted. The deletions are stated by the step lemmas named above, by StripDecorated for a conventional doc block, and by StrayCloserSlash and CloserAtLineStart for the closer at a line start.
- Normalizer.StripCloserFirst: its own contract says the result is a subsequence of the input, not which characters are deleted. The deletions are stated by OpenerDeleted, CloserDeleted, ClosingVanishes and StripDecorated.
- Extractor.Extract: the name is read from capture group 1 and the value from capture group 2. The rules' name pattern is assumed to have no capturing group of its own; one would shift the value to a later group, and the parser would read that inner group's capture as the value instead.
- Extractor.MatchAt: the identifier is compared as a literal character. The parser writes it into both patterns after a backslash, which is a literal only for punctuation; an ASCII letter or digit identifier would become a PCRE escape sequence (`\d`, `\w`, a back reference) and match something else. The model covers punctuation identifiers such as `@`.
- A failing regex call is not modelled. PCRE can stop at its backtracking or JIT stack limit. When the replacement fails, it returns null and the parse yields an empty array. When the search fails part-way, the parse keeps only the annotations matched before the failure, because the return value of `preg_match_all` is not checked. The model's functions are total and always describe a completed match.
- Normalizer.StripScan: `^` is modelled as holding at the start of the text and after every line feed. PCRE's multi-line `^` does not hold after a line feed that ends the text, but there the rest is empty and no alternative can match, so the two agree.
- Extractor.NameAt: a name pattern able to match the empty string can make PCRE report empty names. The model treats an empty name as no match.
- The regexes are compiled without the `u` flag, so the text is a sequence of bytes in the source. The model uses `char` and does not model encodings.

## Findings

| source | as written | input that shows it | evidently intended | confidence | as-written member | corrected member |
|---|---|---|---|---|---|---|
| src/Parser.php:69 | the line-start alternative `^\s*\*\s{0,1}` is tried before the closer `\s*\*\/`; on a blank ` *` row `\s{0,1}` takes the line feed, so the closer row ` */` starts a line and only its ` *` is deleted | `"/**\n * @foo\n *\n */"` strips to `"\n@foo\n/"`, and `@foo` gets the value `/` from the Dynamic handler | the closer vanishes entirely and `@foo` is the implicit `true`, as with no blank row | medium, not executed | Samples.StrayCloserAsWritten | Samples.StrayCloserFixed |
