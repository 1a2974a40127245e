/**
 * The development tool `validate_error_strings`: it walks the packed blob of
 * NUL-terminated error messages in catalog order and emits, for each message,
 * the byte offset of its first character, as one line of the `errno_to_msg`
 * table
 *
 *   [ 22] = error_strings + 401,  // "Invalid argument"
 *
 * ready to be pasted back into the source.
 */
module ContractTools {
  import opened Text
  import ErrorCatalog

  const NUL: char := '\0'

  // ---------------------------------------------------------------------------
  // The blob and its messages
  // ---------------------------------------------------------------------------

  /** No message contains the terminator. */
  predicate Terminable(ms: seq<string>) {
    forall i :: 0 <= i < |ms| ==> NUL !in ms[i]
  }

  /** Messages laid out back to back, each followed by its terminator. */
  function Pack(ms: seq<string>): (blob: string)
    ensures |blob| >= |ms|
  {
    if ms == [] then [] else ms[0] + [NUL] + Pack(ms[1..])
  }

  /**
   * The NUL-terminated messages of a blob, in order. Text after the last
   * terminator ends no message and is not one.
   */
  function Messages(blob: string): (ms: seq<string>)
    ensures Terminable(ms)
    decreases |blob|
  {
    match Cut(blob, NUL)
    case None => []
    case Some(split) => [split.0] + Messages(split.1)
  }

  /** Where each message of `Pack(ms)` starts: the length of everything packed before it. */
  function Offsets(ms: seq<string>): (offsets: seq<nat>)
    ensures |offsets| == |ms|
    ensures |ms| > 0 ==> offsets[0] == 0
    ensures forall i :: 0 < i < |ms| ==> offsets[i] > 0
  {
    seq(|ms|, i requires 0 <= i < |ms| => |Pack(ms[..i])|)
  }

  lemma {:induction false} PackConcat(a: seq<string>, b: seq<string>)
    ensures Pack(a + b) == Pack(a) + Pack(b)
    decreases |a|
  {
    if a != [] {
      assert (a + b)[1..] == a[1..] + b;
      PackConcat(a[1..], b);
    } else {
      assert a + b == b;
    }
  }

  /** Packing one more message appends it and its terminator. */
  lemma PackAppend(ms: seq<string>, m: string)
    ensures Pack(ms + [m]) == Pack(ms) + m + [NUL]
  {
    PackConcat(ms, [m]);
    assert Pack([m]) == m + [NUL] + Pack([]);
  }

  lemma ConsAppend<T>(a: seq<T>, b: seq<T>)
    requires a != []
    ensures [a[0]] + (a[1..] + b) == a + b
  {
    assert a == [a[0]] + a[1..];
  }

  /** A terminated message at the front of a blob is its first message. */
  lemma MessagesCons(m: string, tail: string)
    requires NUL !in m
    ensures Messages(m + [NUL] + tail) == [m] + Messages(tail)
  {
    CutConcat(m, NUL, tail);
  }

  /** Reading messages from a packed prefix yields the packed messages first. */
  lemma {:induction false} MessagesOfPack(ms: seq<string>, rest: string)
    requires Terminable(ms)
    ensures Messages(Pack(ms) + rest) == ms + Messages(rest)
    decreases |ms|
  {
    if ms == [] {
      assert Pack(ms) + rest == rest;
      assert ms + Messages(rest) == Messages(rest);
    } else {
      var m, tail := ms[0], Pack(ms[1..]) + rest;
      assert Pack(ms) + rest == m + [NUL] + tail;
      MessagesCons(m, tail);
      MessagesOfPack(ms[1..], rest);
      ConsAppend(ms, Messages(rest));
    }
  }

  /** Packing and reading back are inverse: the blob format loses nothing. */
  lemma MessagesPackRoundTrip(ms: seq<string>)
    requires Terminable(ms)
    ensures Messages(Pack(ms)) == ms
  {
    MessagesOfPack(ms, []);
    assert Pack(ms) + [] == Pack(ms);
  }

  /** There are exactly as many messages as terminators. */
  lemma {:induction false} MessageCount(blob: string)
    ensures |Messages(blob)| == multiset(blob)[NUL]
    decreases |blob|
  {
    match Cut(blob, NUL)
    case None =>
    case Some(split) =>
      MessageCount(split.1);
      assert multiset(blob) == multiset(split.0) + multiset([NUL]) + multiset(split.1);
  }

  /** The messages, packed, are a prefix of the blob, and no terminator follows them. */
  lemma {:induction false} MessagesArePrefix(blob: string)
    ensures |Pack(Messages(blob))| <= |blob|
    ensures blob[..|Pack(Messages(blob))|] == Pack(Messages(blob))
    ensures NUL !in blob[|Pack(Messages(blob))|..]
    decreases |blob|
  {
    match Cut(blob, NUL)
    case None =>
    case Some(split) =>
      MessagesArePrefix(split.1);
      var ms := Messages(blob);
      assert ms[1..] == Messages(split.1);
      assert Pack(ms) == split.0 + [NUL] + Pack(Messages(split.1));
  }

  /** Message `i` of a packed blob sits at its offset and is followed by its terminator. */
  lemma MessageAt(ms: seq<string>, i: nat)
    requires i < |ms|
    ensures Offsets(ms)[i] + |ms[i]| < |Pack(ms)|
    ensures Pack(ms)[Offsets(ms)[i]..Offsets(ms)[i] + |ms[i]|] == ms[i]
    ensures Pack(ms)[Offsets(ms)[i] + |ms[i]|] == NUL
  {
    assert ms == ms[..i] + ([ms[i]] + ms[i + 1..]);
    PackConcat(ms[..i], [ms[i]] + ms[i + 1..]);
    PackConcat([ms[i]], ms[i + 1..]);
    assert Pack([ms[i]]) == ms[i] + [NUL] + Pack([]);
    var before := Pack(ms[..i]);
    assert Pack(ms) == before + (ms[i] + [NUL] + Pack(ms[i + 1..]));
  }

  /** Consecutive offsets differ by the earlier message's length and its terminator. */
  lemma OffsetStep(ms: seq<string>, i: nat)
    requires i + 1 < |ms|
    ensures Offsets(ms)[i + 1] == Offsets(ms)[i] + |ms[i]| + 1
  {
    assert ms[..i + 1] == ms[..i] + [ms[i]];
    PackAppend(ms[..i], ms[i]);
  }

  /** Offsets grow strictly with the message index. */
  lemma {:induction false} OffsetsIncrease(ms: seq<string>, i: nat, j: nat)
    requires i < j < |ms|
    ensures Offsets(ms)[i] < Offsets(ms)[j]
    decreases j - i
  {
    OffsetStep(ms, i);
    if i + 1 < j {
      OffsetsIncrease(ms, i + 1, j);
    }
  }

  /**
   * What the table promises about a blob: the first offset is 0; every later
   * one comes right after a terminator, so it starts a message and never
   * points into one; the characters from offset `i` up to the next
   * terminator are exactly message `i`; and everything lies inside the blob.
   */
  lemma OffsetsAddressMessages(blob: string, i: nat)
    requires i < |Messages(blob)|
    ensures AddressesMessage(blob, Messages(blob), Offsets(Messages(blob)), i)
  {
    MessagesArePrefix(blob);
    PackedPrefixAddresses(blob, Messages(blob), i);
  }

  /**
   * Offset `i` addresses message `i` of `blob`: the message lies inside the
   * blob from that offset up to a terminator, holds no terminator itself, and
   * the offset is 0 or comes right after a terminator.
   */
  predicate AddressesMessage(blob: string, ms: seq<string>, offsets: seq<nat>, i: nat)
    requires i < |ms| == |offsets|
  {
    && offsets[i] + |ms[i]| < |blob|
    && blob[offsets[i]..offsets[i] + |ms[i]|] == ms[i]
    && NUL !in ms[i]
    && blob[offsets[i] + |ms[i]|] == NUL
    && (i == 0 ==> offsets[i] == 0)
    && (i > 0 ==> 0 < offsets[i] && blob[offsets[i] - 1] == NUL)
  }

  /** The same, for any blob that starts with the packed messages. */
  lemma PackedPrefixAddresses(blob: string, ms: seq<string>, i: nat)
    requires Terminable(ms)
    requires i < |ms| && |Pack(ms)| <= |blob| && blob[..|Pack(ms)|] == Pack(ms)
    ensures AddressesMessage(blob, ms, Offsets(ms), i)
  {
    var packed := Pack(ms);
    var at := Offsets(ms)[i];
    var end := at + |ms[i]|;
    MessageAt(ms, i);
    PrefixAgrees(blob, packed, at, end);
    PrefixAgrees(blob, packed, end, end + 1);
    if i > 0 {
      PackedPrefixFollowsTerminator(blob, ms, i);
    } else {
      assert ms[..0] == [];
    }
  }

  lemma PackedPrefixFollowsTerminator(blob: string, ms: seq<string>, i: nat)
    requires 0 < i < |ms| && |Pack(ms)| <= |blob| && blob[..|Pack(ms)|] == Pack(ms)
    ensures 0 < Offsets(ms)[i] <= |Pack(ms)| && blob[Offsets(ms)[i] - 1] == NUL
  {
    OffsetStep(ms, i - 1);
    MessageAt(ms, i - 1);
    var k := Offsets(ms)[i - 1] + |ms[i - 1]|;
    PrefixAgrees(blob, Pack(ms), k, k + 1);
  }

  /** A sequence agrees with any prefix of itself on every slice the prefix covers. */
  lemma PrefixAgrees<T>(s: seq<T>, p: seq<T>, a: nat, b: nat)
    requires |p| <= |s| && s[..|p|] == p && a <= b <= |p|
    ensures s[a..b] == p[a..b]
    ensures a < b ==> s[a] == p[a]
  {
    forall k | a <= k < b
      ensures s[k] == p[k]
    {
      assert s[..|p|][k] == s[k];
    }
    assert s[a..b] == p[a..b];
  }

  // ---------------------------------------------------------------------------
  // The emitted table
  // ---------------------------------------------------------------------------

  const TableMiddle := " = error_strings + "
  const CommentOpen := "  // \""

  /** One emitted line: `[%3d] = error_strings + %d,  // "%s"`. */
  function TableLine(code: int, offset: nat, message: string): (line: string)
    ensures |line| > 0 && line[0] == '['
  {
    "[" + PadLeft(IntToDecimal(code), 3) + "]" + TableMiddle + NatToDecimal(offset)
      + "," + CommentOpen + message + "\""
  }

  /** The format's own example line. */
  lemma TableLineExample()
    ensures TableLine(22, 401, "Invalid argument")
      == "[ 22] = error_strings + 401,  // \"Invalid argument\""
  {
    ExampleFields();
    ExampleHead();
  }

  lemma ExampleHead()
    ensures "[" + " 22" + "]" + TableMiddle + "401" + "," + CommentOpen
      == "[ 22] = error_strings + 401,  // \""
  {
    var head := "[" + " 22" + "]";
    assert head == "[ 22]";
    assert head + TableMiddle == "[ 22] = error_strings + ";
  }

  lemma ExampleFields()
    ensures PadLeft(IntToDecimal(22), 3) == " 22"
    ensures NatToDecimal(401) == "401"
  {
    assert NatToDecimal(2) == "2";
    assert NatToDecimal(22) == "22";
    assert NatToDecimal(4) == "4";
    assert NatToDecimal(40) == "40";
  }

  /** Drops the spaces a `%3d` field is padded with. */
  function TrimLeft(s: string): (r: string)
    ensures |r| <= |s| && r == s[|s| - |r|..]
  {
    if |s| > 0 && s[0] == ' ' then TrimLeft(s[1..]) else s
  }

  /** Reads an emitted line back into its code, offset and message. */
  function ParseTableLine(s: string): Option<(int, nat, string)> {
    if |s| == 0 || s[0] != '[' then None
    else
      var field :- Cut(s[1..], ']');
      var code :- ParseInt(TrimLeft(field.0));
      var entry :- ParseTableEntry(field.1);
      Some((code, entry.0, entry.1))
  }

  /** Reads what follows the bracketed code: the offset and the quoted message. */
  function ParseTableEntry(rest: string): Option<(nat, string)> {
    if |rest| < |TableMiddle| || rest[..|TableMiddle|] != TableMiddle then None
    else
      var number :- Cut(rest[|TableMiddle|..], ',');
      var offset :- ParseNat(number.0);
      var quoted := number.1;
      if |quoted| < |CommentOpen| + 1 || quoted[..|CommentOpen|] != CommentOpen
         || quoted[|quoted| - 1] != '"'
      then None
      else Some((offset, quoted[|CommentOpen|..|quoted| - 1]))
  }

  lemma {:induction false} TrimPadding(k: nat, s: string)
    requires |s| > 0 && s[0] != ' '
    ensures TrimLeft(seq(k, _ => ' ') + s) == s
    decreases k
  {
    if k > 0 {
      assert (seq(k, _ => ' ') + s)[1..] == seq(k - 1, _ => ' ') + s;
      TrimPadding(k - 1, s);
    } else {
      assert seq(k, _ => ' ') + s == s;
    }
  }

  /** The `%3d` field holds no bracket and reads back as the code. */
  lemma PaddedCodeRoundTrip(code: int)
    ensures ']' !in PadLeft(IntToDecimal(code), 3)
    ensures ParseInt(TrimLeft(PadLeft(IntToDecimal(code), 3))) == Some(code)
  {
    var codeText := IntToDecimal(code);
    assert ']' !in codeText by {
      forall i | 0 <= i < |codeText| ensures codeText[i] != ']' {
      }
    }
    PadLeftAvoids(codeText, 3, ']');
    TrimPadLeft(codeText, 3);
    IntToDecimalRoundTrip(code);
  }

  /** Padding adds only spaces. */
  lemma PadLeftAvoids(s: string, width: nat, c: char)
    requires c != ' ' && c !in s
    ensures c !in PadLeft(s, width)
  {
    var r := PadLeft(s, width);
    forall i | 0 <= i < |r| ensures r[i] != c {
      if i >= |r| - |s| {
        assert r[i] == r[|r| - |s|..][i - (|r| - |s|)];
      }
    }
  }

  /** Trimming the padding gives back a text that does not start with a space. */
  lemma TrimPadLeft(s: string, width: nat)
    requires |s| > 0 && s[0] != ' '
    ensures TrimLeft(PadLeft(s, width)) == s
  {
    if |s| < width {
      TrimPadding(width - |s|, s);
    }
  }

  lemma EntryLayout(middle: string, number: string, open: string, message: string)
    ensures var rest := middle + number + "," + open + message + "\"";
      && |middle| <= |rest| && rest[..|middle|] == middle
      && rest[|middle|..] == number + [','] + (open + message + "\"")
  {
  }

  lemma QuotedLayout(open: string, message: string)
    ensures var quoted := open + message + "\"";
      && quoted[..|open|] == open && quoted[|quoted| - 1] == '"'
      && quoted[|open|..|quoted| - 1] == message
  {
  }

  lemma TableLineLayout(padded: string, middle: string, number: string, open: string, message: string)
    ensures var line := "[" + padded + "]" + middle + number + "," + open + message + "\"";
      && line[0] == '['
      && line[1..] == padded + [']'] + (middle + number + "," + open + message + "\"")
  {
  }

  lemma TableEntryRoundTrip(offset: nat, message: string)
    ensures ParseTableEntry(TableMiddle + NatToDecimal(offset) + "," + CommentOpen + message + "\"")
      == Some((offset, message))
  {
    var offsetText := NatToDecimal(offset);
    EntryLayout(TableMiddle, offsetText, CommentOpen, message);
    CutConcat(offsetText, ',', CommentOpen + message + "\"");
    NatToDecimalRoundTrip(offset);
    QuotedLayout(CommentOpen, message);
  }

  /** An emitted line shows its code, its offset and its message, recoverably. */
  lemma TableLineRoundTrip(code: int, offset: nat, message: string)
    ensures ParseTableLine(TableLine(code, offset, message)) == Some((code, offset, message))
  {
    var padded := PadLeft(IntToDecimal(code), 3);
    var offsetText := NatToDecimal(offset);
    var rest := TableMiddle + offsetText + "," + CommentOpen + message + "\"";
    TableLineLayout(padded, TableMiddle, offsetText, CommentOpen, message);
    PaddedCodeRoundTrip(code);
    CutConcat(padded, ']', rest);
    TableEntryRoundTrip(offset, message);
  }

  // ---------------------------------------------------------------------------
  // The walk over the blob
  // ---------------------------------------------------------------------------

  /**
   * One pass over `blob`: each terminator closes a message, whose offset is
   * where the previous terminator left off. Message `k` is paired with
   * `codes[k]`: the table assumes the blob lists its messages in the order of
   * the codes, and has no way to check it.
   */
  method ValidateErrorStrings(blob: array<char>, codes: seq<int>)
    returns (offsets: seq<nat>, table: seq<string>)
    requires |codes| == |Messages(blob[..])|
    ensures offsets == Offsets(Messages(blob[..]))
    ensures |table| == |offsets|
    ensures forall k :: 0 <= k < |table| ==>
      table[k] == TableLine(codes[k], offsets[k], Messages(blob[..])[k])
  {
    ghost var text := blob[..];
    offsets, table := [], [];
    ghost var ms: seq<string> := [];
    var start, i := 0, 0;
    while i < blob.Length
      invariant 0 <= start <= i <= |text|
      invariant Terminable(ms) && text[..start] == Pack(ms)
      invariant NUL !in text[start..i]
      invariant offsets == Offsets(ms)
      invariant |ms| <= |codes| && table == TableLines(codes, offsets, ms)
    {
      if blob[i] == NUL {
        var message := blob[start..i];
        assert message == text[start..i];
        WalkStep(text, ms, start, i);
        TableLinesAppend(codes, offsets, ms, start, message);
        table := table + [TableLine(codes[|offsets|], start, message)];
        offsets := offsets + [start];
        ms := ms + [message];
        start := i + 1;
      } else {
        SliceExtend(text, start, i);
      }
      i := i + 1;
    }
    SliceExtend(text, start, i);
    WalkEnd(text, ms, start);
  }

  /**
   * `validate_error_strings` on the catalog's own blob: its codes are the
   * values of `posix_error_t` in declaration order, so line `k` carries the
   * value of the `k`-th declared name and the offset of the `k`-th message.
   */
  method ValidateCatalogStrings(blob: array<char>) returns (offsets: seq<nat>, table: seq<string>)
    requires |Messages(blob[..])| == ErrorCatalog.DeclaredCount
    ensures offsets == Offsets(Messages(blob[..]))
    ensures |table| == ErrorCatalog.DeclaredCount
    ensures forall e: ErrorCatalog.PosixError ::
      var k := ErrorCatalog.DeclarationIndex(e);
      table[k] == TableLine(ErrorCatalog.Value(e), offsets[k], Messages(blob[..])[k])
  {
    var codes := ErrorCatalog.DeclaredValues();
    offsets, table := ValidateErrorStrings(blob, codes);
  }

  /** The lines emitted for the first `|ms|` messages. */
  function TableLines(codes: seq<int>, offsets: seq<nat>, ms: seq<string>): (table: seq<string>)
    requires |offsets| == |ms| <= |codes|
    ensures |table| == |ms|
    ensures forall k :: 0 <= k < |ms| ==> table[k] == TableLine(codes[k], offsets[k], ms[k])
  {
    seq(|ms|, k requires 0 <= k < |ms| => TableLine(codes[k], offsets[k], ms[k]))
  }

  lemma TableLinesAppend(codes: seq<int>, offsets: seq<nat>, ms: seq<string>, offset: nat, m: string)
    requires |offsets| == |ms| < |codes|
    ensures TableLines(codes, offsets + [offset], ms + [m])
      == TableLines(codes, offsets, ms) + [TableLine(codes[|ms|], offset, m)]
  {
    var longer := TableLines(codes, offsets + [offset], ms + [m]);
    var shorter := TableLines(codes, offsets, ms);
    forall k | 0 <= k < |ms| ensures longer[k] == shorter[k] {
      assert (offsets + [offset])[k] == offsets[k] && (ms + [m])[k] == ms[k];
    }
    AppendPointwise(longer, shorter);
  }

  /** A sequence one longer than `b` that agrees with `b` on `b`'s indices extends `b`. */
  lemma AppendPointwise<T>(a: seq<T>, b: seq<T>)
    requires |a| == |b| + 1
    requires forall k :: 0 <= k < |b| ==> a[k] == b[k]
    ensures a == b + [a[|b|]]
  {
  }

  /** One terminator closes the message begun at `start` and records its offset. */
  lemma WalkStep(blob: string, ms: seq<string>, start: nat, i: nat)
    requires start <= i < |blob| && blob[i] == NUL
    requires Terminable(ms) && blob[..start] == Pack(ms)
    requires NUL !in blob[start..i]
    ensures Terminable(ms + [blob[start..i]])
    ensures blob[..i + 1] == Pack(ms + [blob[start..i]])
    ensures |ms| < |Messages(blob)|
    ensures Offsets(ms + [blob[start..i]]) == Offsets(ms) + [start]
  {
    var message := blob[start..i];
    SliceAround(blob, start, i);
    PackAppend(ms, message);
    OffsetsAppend(ms, message);
    PackedPrefixMessages(blob, ms + [message], i + 1);
  }

  /** Text after the last terminator adds no message. */
  lemma WalkEnd(blob: string, ms: seq<string>, start: nat)
    requires start <= |blob| && NUL !in blob[start..]
    requires Terminable(ms) && blob[..start] == Pack(ms)
    ensures Messages(blob) == ms
  {
    PackedPrefixMessages(blob, ms, start);
    assert Messages(blob[start..]) == [];
    assert ms + [] == ms;
  }

  /** A blob that starts with packed messages reads back as those messages first. */
  lemma PackedPrefixMessages(blob: string, ms: seq<string>, n: nat)
    requires Terminable(ms) && n <= |blob| && blob[..n] == Pack(ms)
    ensures Messages(blob) == ms + Messages(blob[n..])
  {
    assert blob == Pack(ms) + blob[n..];
    MessagesOfPack(ms, blob[n..]);
  }

  lemma SliceExtend<T>(s: seq<T>, a: nat, b: nat)
    requires a <= b <= |s|
    ensures b < |s| ==> s[a..b + 1] == s[a..b] + [s[b]]
    ensures b == |s| ==> s[a..] == s[a..b]
  {
  }

  lemma SliceAround<T>(s: seq<T>, start: nat, i: nat)
    requires start <= i < |s|
    ensures s[start..] == s[start..i] + [s[i]] + s[i + 1..]
    ensures s[..i + 1] == s[..start] + s[start..i] + [s[i]]
  {
  }

  /** A newly packed message starts where the earlier ones end. */
  lemma OffsetsAppend(ms: seq<string>, m: string)
    ensures Offsets(ms + [m]) == Offsets(ms) + [|Pack(ms)|]
  {
    var next := ms + [m];
    forall k | 0 <= k < |ms|
      ensures Offsets(next)[k] == Offsets(ms)[k]
    {
      assert next[..k] == ms[..k];
    }
    assert next[..|ms|] == ms;
  }
}
