# CONTRACT failure path, error catalog and offset-table tool, in Dafny

This project models the core of the C library CONTRACT (design-by-contract checks for C):

- **The violation reporter `_contract_fail`** (module `Contract`, `contract.dfy`). It reduces the
  reporting file's path to its base name. A backslash takes priority: only when the path has no
  backslash is the last forward slash used. It renders the local time with
  `"%Y-%m-%d %H:%M:%S"` into a 20-byte buffer. It writes one line
  `[<timestamp>] <basename>:<line>|<condition>|<errno>(<description>)|<message>\n` to the error
  stream and then aborts. The line is a pure function of its fields, and an independent parser
  reads every field back. The whole call is a function returning the trace of its effects:
  one write followed by `Abort`.
- **The error-code table `posix_error_t`** (module `ErrorCatalog`, `contract_errors.dfy`).
  - It has one constructor per enumerator, in declaration order, and `Value` gives the numeric
    value. Lemmas cover:
    - the two alias pairs (EAGAIN/EWOULDBLOCK = 11, ENOTSUP/EOPNOTSUPP = 95);
    - injectivity everywhere else;
    - the gaps in the numbering;
    - the places where declaration order differs from numeric order;
    - the four historical layers and their value ranges.
  - The catalog lookup `contract_strerror` is modelled as keyed on the numeric value. Aliases
    therefore resolve identically by construction; the name they resolve to is the one declared
    first.
- **The generator `validate_error_strings`** (module `ContractTools`, `contract_tools.dfy`).
  - A method with a loop walks an `array<char>` blob of NUL-terminated messages. For each
    message it records the offset of the first character and the table line
    `[%3d] = error_strings + %d,  // "%s"`. Each Dafny `char` of the blob stands for one byte
    of the C `char` array, so a character offset is the byte offset of the C blob.
  - `ValidateCatalogStrings` runs the walk with the enum's values in declaration order as the
    codes. It assumes one blob message per enumerator, aliases included; the routine only says
    that the blob follows the expected sequence of errno values, not whether an alias pair has
    one message or two.
  - The method is proved against a specification on sequences: `Pack`, `Messages` and `Offsets`.
    Lemmas about these functions state what the offsets mean: the first is 0; each later one
    follows a terminator; they are strictly increasing and inside the blob; each addresses
    exactly its message.
- **Shared text helpers** (module `Text`, `text.dfy`): the C library's `strrchr`, printf's `%d`
  and `%3d`, and parsers for them.

## Model

| member | source | states |
|---|---|---|
| Text.LastIndexOf | src/CONTRACT/contract.c:17-18 | `strrchr`: the index found holds the character and none follows it; None exactly when the character does not occur |
| Text.IntToDecimal | src/CONTRACT/contract.c:24-29 | `%d` of an int: digits only, with a leading '-' exactly when the value is negative, and no leading zero except in "0" |
| Text.IntToDecimalRoundTrip | src/CONTRACT/contract.c:24-29 | the `%d` rendering of the line number and of errno reads back as the same integer |
| Text.NatToDecimalLength | src/CONTRACT/contract.c:13 | `%d` prints at most k digits exactly when the value is below 10^k (used for the four-digit year) |
| Text.PadLeft | src/CONTRACT/contract_tools.h:20 | `%3d` padding: width is max(len, 3), the text is a suffix, only spaces precede it |
| Contract.Basename | src/CONTRACT/contract.c:14-19 | the base name is a suffix of the path, never longer, holds no backslash, and holds no slash when the path has no backslash |
| Contract.BasenameAfterLastBackslash | src/CONTRACT/contract.c:17-19 | with a backslash in the path, the base name is exactly what follows the last backslash |
| Contract.BasenameAfterLastSlash | src/CONTRACT/contract.c:18-19 | without a backslash, the base name is exactly what follows the last '/' |
| Contract.BasenameWithoutSeparator | src/CONTRACT/contract.c:14-19 | a path with neither separator is returned unchanged |
| Contract.BasenameOfTrailingSeparator | src/CONTRACT/contract.c:14-19 | a path ending in the separator that is searched for yields the empty base name |
| Contract.BasenameOfBothStyles | src/CONTRACT/contract.c:17-19 | "/a/b/c.ext" and "a\b\c.ext" both give "c.ext" |
| Contract.BasenameBackslashPriority | src/CONTRACT/contract.c:17-19 | backslash wins in mixed paths: "x/y\z/w.c" gives "z/w.c" and "a\b/" gives "b/" |
| Contract.TwoDigits | src/CONTRACT/contract.c:22 | `%m %d %H %M %S` fields: two digits that read back as the value |
| Contract.RenderTimestamp | src/CONTRACT/contract.c:22 | the `"%Y-%m-%d %H:%M:%S"` rendering is the year's digits plus 15 characters, and holds no ']' and no newline |
| Contract.Strftime | src/CONTRACT/contract.c:22 | the rendering is produced exactly when it fits the 20-byte buffer with its terminator; it holds no ']' and no newline |
| Contract.TimestampShape | src/CONTRACT/contract.c:13 | for a four-digit year the timestamp is `YYYY-MM-DD HH:MM:SS`: 19 characters, filling the buffer with its terminator, separators in place, each field reading back as its `struct tm` value |
| Contract.TimestampOverflow | src/CONTRACT/contract.c:13 | from year 10000 on, and for year -1000 and below, the rendering does not fit the buffer |
| Contract.FormatLine | src/CONTRACT/contract.c:24 | the line ends in a newline and has no other newline when its fields have none |
| Contract.FormatLineRoundTrip | src/CONTRACT/contract.c:24-31 | parsing the formatted line gives back all seven fields in order, whenever no field contains the delimiter that ends it |
| Contract.ContractFail | src/CONTRACT/contract.c:5-33 | the failure path performs exactly one write of one newline-terminated line, then aborts; nothing follows |
| Contract.ContractFailReports | src/CONTRACT/contract.c:14-31 | the written line carries the timestamp, the base name, the line, the condition verbatim, errno with the description of that same errno, and the message verbatim |
| ErrorCatalog.Value | src/CONTRACT/contract_errors.h:24-102 | every enumerator's value lies in 0..131, and 0 belongs to SUCCESS alone |
| ErrorCatalog.DeclarationIndex | src/CONTRACT/contract_errors.h:22-104 | each name has a position below 59, and the name declared at that position is the name itself |
| ErrorCatalog.DeclaredValues | src/CONTRACT/contract_errors.h:22-104 | the 59 values in declaration order: position of each name holds its value |
| ErrorCatalog.DeclaredValuesRepeatAliases | src/CONTRACT/contract_errors.h:40-87 | the declared values list 11 twice (EAGAIN first, then EWOULDBLOCK) and 95 twice (ENOTSUP first, then EOPNOTSUPP) |
| ErrorCatalog.NameOf | src/CONTRACT/contract_errors.h:22-104 | a lookup keyed on the value only answers names that carry that value |
| ErrorCatalog.NameOfValue | src/CONTRACT/contract_errors.h:22-104 | looking up a name's value gives the name itself, or the earlier-declared name of its alias pair |
| ErrorCatalog.NameOfRegistered | src/CONTRACT/contract_errors.h:22-104 | the lookup succeeds exactly for the values some enumerator carries |
| ErrorCatalog.OnlyTwoAliasPairs | src/CONTRACT/contract_errors.h:22-104 | two distinct names with the same value are EAGAIN/EWOULDBLOCK or ENOTSUP/EOPNOTSUPP |
| ErrorCatalog.AliasPairs | src/CONTRACT/contract_errors.h:40-87 | EAGAIN and EWOULDBLOCK are both 11; ENOTSUP and EOPNOTSUPP are both 95 |
| ErrorCatalog.Gaps | src/CONTRACT/contract_errors.h:44-66 | 15, 28, 29, 37, 38, 41 and 42 carry no name and the lookup finds none |
| ErrorCatalog.DeclarationOrderIsNotNumeric | src/CONTRACT/contract_errors.h:63-65 | EROFS (30) and EMLINK (31) are declared after ELOOP (40) |
| ErrorCatalog.LayerOf | src/CONTRACT/contract_errors.h:22-104 | the layer of the comment block that declares each name; SUCCESS alone is in the success layer |
| ErrorCatalog.LayerBounds | src/CONTRACT/contract_errors.h:26-102 | each name's value lies in its layer's range: 0, 1-43, 62-84, 90-116, 125-131 |
| ErrorCatalog.LayerMatchesDeclaration | src/CONTRACT/contract_errors.h:22-104 | a name's layer is the layer of its position in the declaration (each layer is one contiguous block) |
| ErrorCatalog.LayersAreOrderedByValue | src/CONTRACT/contract_errors.h:12-16 | every value of an older layer is below every value of a newer one |
| ErrorCatalog.LayersFollowDeclarationOrder | src/CONTRACT/contract_errors.h:12-16 | declaration order never returns to an older layer |
| ErrorCatalog.Description | src/CONTRACT/contract_errors.h:24-102 | each enumerator's description is its doc comment, never empty |
| ErrorCatalog.Strerror | src/CONTRACT/contract_errors.h:106 | the value-keyed lookup finds a description exactly for registered values, and that description is not empty |
| ErrorCatalog.StrerrorIsAliasTransparent | src/CONTRACT/contract_errors.h:106 | names with the same value resolve to the same first-declared name, and the lookup gives that name's description for both |
| ContractTools.Messages | src/CONTRACT/contract_tools.h:11-12 | the blob's NUL-terminated messages, none containing a NUL |
| ContractTools.Offsets | src/CONTRACT/contract_tools.h:9-14 | one offset per message, the first of them 0 (the offsets' meaning is in the lemmas below) |
| ContractTools.MessagesOfPack | src/CONTRACT/contract_tools.h:9-12 | reading a packed prefix yields the packed messages first, then the rest |
| ContractTools.MessagesPackRoundTrip | src/CONTRACT/contract_tools.h:9-12 | packing messages and reading the blob back gives the same messages |
| ContractTools.MessageCount | src/CONTRACT/contract_tools.h:11-13 | there are exactly as many messages as NUL terminators in the blob |
| ContractTools.MessagesArePrefix | src/CONTRACT/contract_tools.h:11-12 | the packed messages are a prefix of the blob and no terminator follows them |
| ContractTools.MessageAt | src/CONTRACT/contract_tools.h:14-20 | in a packed blob, message i sits at offset i and is followed by its terminator |
| ContractTools.OffsetStep | src/CONTRACT/contract_tools.h:9-12 | consecutive offsets differ by the earlier message's length plus one |
| ContractTools.OffsetsIncrease | src/CONTRACT/contract_tools.h:13-14 | offsets are strictly increasing |
| ContractTools.OffsetsAddressMessages | src/CONTRACT/contract_tools.h:11-14 | every offset is inside the blob; the first is 0; every later one follows a NUL; the characters up to the next NUL are exactly message i |
| ContractTools.TableLine | src/CONTRACT/contract_tools.h:19-20 | a table line starts with '[' |
| ContractTools.TableLineExample | src/CONTRACT/contract_tools.h:20 | code 22, offset 401, "Invalid argument" gives `[ 22] = error_strings + 401,  // "Invalid argument"` |
| ContractTools.TableLineRoundTrip | src/CONTRACT/contract_tools.h:19-20 | a table line shows its code, offset and message recoverably |
| ContractTools.ValidateErrorStrings | src/CONTRACT/contract_tools.h:8-28 | one pass over the blob yields exactly the offsets of its messages, in blob order, and line k pairs code k with offset k and message k |
| ContractTools.ValidateCatalogStrings | src/CONTRACT/contract_tools.h:11-23 | with the enum's values as the codes, the line of each name carries that name's value and the offset and text of the message at its declaration position |

## Left out

- `time`, `localtime` and the clock: `ContractFail` takes the broken-down local time as a
  parameter. The case where `localtime` returns NULL is not modelled.
- The `errno` global: it is a parameter. It stands for `errno` as read at contract.c:29-30, that is
  after `time`, `localtime` and `strftime` have run (contract.c:11,21-22). Those calls may set
  `errno` even when they succeed, so the reported code need not be the value `errno` had when the
  check failed. The model does not capture that difference: its parameter is unconstrained.
- `contract_strerror` is a parameter of `ContractFail` too, because its body is not part of this
  model.
- `fprintf` and `abort`: they are the effect trace `[WriteStderr(line), Abort]`. Buffering,
  partial writes and write errors are not modelled.
- Contract.ContractFail: requires that the timestamp fits the buffer. For years past 9999, and
  for years -1000 and below (whose five-character year text does not fit either), `strftime`
  returns 0 and the buffer's contents are indeterminate, so no definite line can be stated.
  `TimestampOverflow` shows when that happens.
- Contract.RenderTimestamp: `%Y` is rendered as the plain decimal year, with a minus sign for
  years below 0. Only years 1000..9999 render the same under every C library: some libraries pad
  smaller years to four digits ("0999"), and the model does not.
- Contract.FormatLineRoundTrip and Contract.ContractFailReports: these hold only when the
  timestamp has no ']', the base name no ':', and the condition and description no '|'.
  A reader cannot split such lines unambiguously.
- The strings handed to `_contract_fail` are C strings: the model does not represent their NUL
  terminator. The model does not represent a NUL inside them either.
- ErrorCatalog.Strerror: the body of `contract_strerror` and its fallback text for unregistered
  values are not part of this model. None stands for that fallback. The descriptions are the
  enumerators' doc comments, not the contents of the real message blob.
- ErrorCatalog.Strerror: that 11 resolves to EAGAIN's text and 95 to ENOTSUP's (the first-declared
  name of each pair) is a modelling choice; the source does not say which text an alias value
  gets. A table generated by `ValidateCatalogStrings` has two lines for 11 and two for 95
  (`DeclaredValuesRepeatAliases`). As designated initializers, the later line of each pair
  overrides the earlier one in C, so the pasted table would resolve 11 to EWOULDBLOCK's message
  and 95 to EOPNOTSUPP's.
- ContractTools.ValidateErrorStrings: the C routine prints the table. The model returns the
  offsets and the table lines as sequences. The blob and the codes are parameters: the real
  `error_strings` blob and `errno_to_msg` table are not part of this model.
- ContractTools.ValidateErrorStrings: requires one code per message. The routine relies on the
  blob listing its messages in the order of the codes and cannot check this; the model pairs
  them by position, as the routine does.
- ContractTools.ValidateCatalogStrings: requires the blob to hold exactly one message per
  enumerator, aliases included. That is an assumption of the model. The routine does not check
  it, and the model states nothing about other blobs.
- `demo_contract.h` is a demo harness and is left out. The require/ensure/invariant macros
  are defined in `contract.h`, and `contract.h` is not part of this model.
- Concurrent calls and interleaved writes to the error stream are not modelled.
