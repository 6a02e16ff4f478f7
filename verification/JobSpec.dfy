/** The job specification: `<address>:<port>:<fn_code>:<param_count>`, comma separated. */
module JobSpec {
  import opened Bytes
  import opened Context

  const DEFAULT_PORT := 12345
  const LONG_LIMIT := 0x8000_0000_0000_0000

  type uint16 = x: int | 0 <= x < 0x1_0000

  /** `used` says whether a handle has been attached to the item. */
  datatype Item = Item(address: string, port: uint16, fnCode: uint32, paramCount: uint32, used: bool)

  const BLANK := Item("", 0, 0, 0, false)

  // ---------------------------------------------------------------- separators

  /** Where `sep` first occurs, or the length. */
  function IndexOf(s: string, sep: char): (k: nat)
    ensures k <= |s| && sep !in s[..k] && (k < |s| ==> s[k] == sep)
  {
    if s == "" || s[0] == sep then 0 else 1 + IndexOf(s[1..], sep)
  }

  /** The pieces between separators; an empty string has one empty piece. */
  function Split(s: string, sep: char): (pieces: seq<string>)
    ensures |pieces| > 0
  {
    var k := IndexOf(s, sep);
    if k == |s| then [s] else [s[..k]] + Split(s[k + 1..], sep)
  }

  lemma IndexSkips(s: string, sep: char, k: nat)
    requires k < |s| && s[k] != sep
    ensures IndexOf(s[k..], sep) == 1 + IndexOf(s[k + 1..], sep)
  {
    assert s[k..][1..] == s[k + 1..];
  }

  lemma IndexStops(s: string, sep: char, k: nat)
    requires k <= |s| && (k < |s| ==> s[k] == sep)
    ensures IndexOf(s[k..], sep) == 0
  {
  }

  lemma SplitFirst(s: string, sep: char)
    ensures var k := IndexOf(s, sep);
      Split(s, sep) == [s[..k]] + if k == |s| then [] else Split(s[k + 1..], sep)
  {
    assert s[..|s|] == s;
  }

  /** The pieces still to come, none once the last one is taken. */
  function Pieces(rest: Option<string>, sep: char): seq<string> {
    if rest.None? then [] else Split(rest.value, sep)
  }

  lemma PiecesOf(rest: Option<string>, sep: char)
    ensures Pieces(rest, sep) == if rest.None? then [] else Split(rest.value, sep)
  {
  }

  lemma TakenPiece(taken: seq<string>, piece: string, rest: seq<string>)
    ensures taken + ([piece] + rest) == (taken + [piece]) + rest
  {
  }

  /** Takes the next piece off, and leaves nothing once the last one is taken. */
  method StrSep(s: string, sep: char) returns (piece: string, rest: Option<string>)
    ensures Split(s, sep) == [piece] + Pieces(rest, sep)
    ensures rest.Some? ==> |rest.value| < |s|
  {
    hide Split, IndexOf;
    var k := 0;
    assert s[0..] == s;
    while k < |s| && s[k] != sep
      invariant k <= |s| && IndexOf(s, sep) == k + IndexOf(s[k..], sep)
    {
      IndexSkips(s, sep, k);
      k := k + 1;
    }
    IndexStops(s, sep, k);
    SplitFirst(s, sep);
    piece := s[..k];
    rest := if k == |s| then None else Some(s[k + 1..]);
  }

  function Occurrences(s: string, c: char): nat {
    if s == "" then 0 else (if s[0] == c then 1 else 0) + Occurrences(s[1..], c)
  }

  lemma {:induction false} OccurrencesAfter(s: string, c: char, k: nat)
    requires k <= |s| && c !in s[..k]
    ensures Occurrences(s, c) == Occurrences(s[k..], c)
  {
    if k > 0 {
      assert s[0] == s[..k][0];
      assert s[1..][..k - 1] == s[..k][1..] && s[1..][k - 1..] == s[k..];
      OccurrencesAfter(s[1..], c, k - 1);
    }
  }

  /** The slots counted before parsing are as many as there are chunks. */
  lemma {:induction false} SplitCount(s: string, sep: char)
    ensures |Split(s, sep)| == Occurrences(s, sep) + 1
    decreases |s|
  {
    var k := IndexOf(s, sep);
    OccurrencesAfter(s, sep, k);
    if k < |s| {
      SplitCount(s[k + 1..], sep);
      assert s[k..][1..] == s[k + 1..];
    }
  }

  method CountSeparators(s: string, sep: char) returns (n: nat)
    ensures n == Occurrences(s, sep)
  {
    n := 0;
    for i := 0 to |s|
      invariant n + Occurrences(s[i..], sep) == Occurrences(s, sep)
    {
      assert s[i..][1..] == s[i + 1..];
      if s[i] == sep {
        n := n + 1;
      }
    }
  }

  // ---------------------------------------------------------------- numbers

  predicate IsDigit(c: char) {
    '0' <= c <= '9'
  }

  /** White space as the C library skips it. */
  function SkipSpace(s: string): string {
    if s != "" && (s[0] == ' ' || 9 <= s[0] as int <= 13) then SkipSpace(s[1..]) else s
  }

  /** The value of the leading digits, on top of those already read. */
  function Leading(s: string, acc: nat): nat {
    if s == "" || !IsDigit(s[0]) then acc else Leading(s[1..], 10 * acc + (s[0] as int - '0' as int))
  }

  /** Base-10 strtol with 64-bit long: leading space, a sign, digits; saturates, and 0 without digits. */
  function Strtol(s: string): (v: int)
    ensures -LONG_LIMIT <= v < LONG_LIMIT
  {
    var t := SkipSpace(s);
    var negative := t != "" && t[0] == '-';
    var digits := if t != "" && (t[0] == '-' || t[0] == '+') then t[1..] else t;
    var n: int := Leading(digits, 0);
    if negative then (if n > LONG_LIMIT then -LONG_LIMIT else -n)
    else if n >= LONG_LIMIT then LONG_LIMIT - 1 else n
  }

  /** The value of a string of digits. */
  function Number(digits: string): nat
    requires forall i :: 0 <= i < |digits| ==> '0' <= digits[i] <= '9'
  {
    if digits == "" then 0
    else 10 * Number(digits[..|digits| - 1]) + (digits[|digits| - 1] as int - '0' as int)
  }

  predicate AllSpace(s: string) {
    forall i :: 0 <= i < |s| ==> s[i] == ' ' || 9 <= s[i] as int <= 13
  }

  predicate AllDigits(s: string) {
    forall i :: 0 <= i < |s| ==> '0' <= s[i] <= '9'
  }

  /** Leading white space, at most one sign, all digits that follow, and the rest. */
  predicate Parts(s: string, space: string, sign: string, digits: string, rest: string) {
    && s == space + sign + digits + rest && AllSpace(space) && (sign == "" || sign == "+" || sign == "-")
    && AllDigits(digits) && (rest == "" || !('0' <= rest[0] <= '9'))
    && (sign == "" && digits == "" && rest != "" ==>
          rest[0] != ' ' && !(9 <= rest[0] as int <= 13) && rest[0] != '+' && rest[0] != '-')
  }

  lemma {:induction false} SpaceSkipped(space: string, t: string)
    requires AllSpace(space) && (t == "" || !(t[0] == ' ' || 9 <= t[0] as int <= 13))
    ensures SkipSpace(space + t) == t
  {
    if space == "" {
      assert space + t == t;
    } else {
      assert (space + t)[1..] == space[1..] + t;
      SpaceSkipped(space[1..], t);
    }
  }

  lemma {:induction false} LeadingStops(digits: string, rest: string, acc: nat)
    requires AllDigits(digits) && (rest == "" || !('0' <= rest[0] <= '9'))
    ensures Leading(digits + rest, acc) == Leading(digits, acc)
  {
    if digits == "" {
      assert digits + rest == rest;
    } else {
      assert (digits + rest)[1..] == digits[1..] + rest;
      LeadingStops(digits[1..], rest, 10 * acc + (digits[0] as int - '0' as int));
    }
  }

  lemma {:induction false} LeadingAppend(s: string, c: char, acc: nat)
    requires IsDigit(c) && AllDigits(s)
    ensures Leading(s + [c], acc) == 10 * Leading(s, acc) + (c as int - '0' as int)
  {
    if s == "" {
      assert (s + [c])[1..] == "";
    } else {
      assert (s + [c])[1..] == s[1..] + [c];
      LeadingAppend(s[1..], c, 10 * acc + (s[0] as int - '0' as int));
    }
  }

  lemma {:induction false} LeadingIs(digits: string)
    requires AllDigits(digits)
    ensures Leading(digits, 0) == Number(digits)
  {
    if digits != "" {
      var n := |digits| - 1;
      LeadingIs(digits[..n]);
      LeadingAppend(digits[..n], digits[n], 0);
      assert digits == digits[..n] + [digits[n]];
    }
  }

  lemma SignRead(space: string, sign: string, digits: string, rest: string)
    requires Parts(space + sign + digits + rest, space, sign, digits, rest)
    ensures var t := sign + digits + rest;
      && (t == "" || !(t[0] == ' ' || 9 <= t[0] as int <= 13))
      && (t != "" && t[0] == '-' <==> sign == "-")
      && (if t != "" && (t[0] == '-' || t[0] == '+') then t[1..] else t) == digits + rest
  {
    var t := sign + digits + rest;
    hide AllSpace;
    if sign == "" {
      assert t == digits + rest;
    } else {
      assert t[0] == sign[0] && t[1..] == digits + rest;
    }
  }

  /** What a string is read as, whatever it contains: the signed digits, cut to 64 bits. */
  lemma StrtolReads(s: string, space: string, sign: string, digits: string, rest: string)
    requires Parts(s, space, sign, digits, rest)
    ensures var v: int := Number(digits);
      Strtol(s) ==
        if sign == "-" then (if v > 0x8000_0000_0000_0000 then -0x8000_0000_0000_0000 else -v)
        else if v > 0x7FFF_FFFF_FFFF_FFFF then 0x7FFF_FFFF_FFFF_FFFF else v
  {
    var t := sign + digits + rest;
    assert s == space + t;
    SignRead(space, sign, digits, rest);
    SpaceSkipped(space, t);
    LeadingStops(digits, rest, 0);
    LeadingIs(digits);
    hide Leading, SkipSpace, Number, Parts, AllSpace, AllDigits, IsDigit;
  }

  /** Every string has such parts. */
  lemma {:induction false} HasParts(s: string) returns (space: string, sign: string, digits: string, rest: string)
    ensures Parts(s, space, sign, digits, rest)
  {
    var k := 0;
    while k < |s| && (s[k] == ' ' || 9 <= s[k] as int <= 13)
      invariant k <= |s| && AllSpace(s[..k])
    {
      assert s[..k + 1] == s[..k] + [s[k]];
      k := k + 1;
    }
    var m := if k < |s| && (s[k] == '+' || s[k] == '-') then k + 1 else k;
    var n := m;
    while n < |s| && '0' <= s[n] <= '9'
      invariant m <= n <= |s| && AllDigits(s[m..n])
    {
      assert s[m..n + 1] == s[m..n] + [s[n]];
      n := n + 1;
    }
    space, sign, digits, rest := s[..k], s[k..m], s[m..n], s[n..];
    assert s == space + sign + digits + rest;
  }

  function Port(s: string): uint16 {
    if |s| > 0 then Strtol(s) % 0x1_0000 else DEFAULT_PORT
  }

  // ---------------------------------------------------------------- one chunk

  /** An item with the first fields overwritten; fields beyond the fourth are ignored. */
  function WithFields(item: Item, fields: seq<string>): Item {
    Item(if |fields| > 0 then fields[0] else item.address,
         if |fields| > 1 then Port(fields[1]) else item.port,
         if |fields| > 2 then Strtol(fields[2]) % 0x1_0000_0000 else item.fnCode,
         if |fields| > 3 then Strtol(fields[3]) % 0x1_0000_0000 else item.paramCount,
         item.used)
  }

  /** What a chunk with exactly four fields describes. */
  function ItemOf(fields: seq<string>): Item
    requires |fields| == 4
  {
    Item(fields[0], Port(fields[1]), Strtol(fields[2]) % 0x1_0000_0000,
         Strtol(fields[3]) % 0x1_0000_0000, false)
  }

  predicate WellFormed(chunk: string) {
    |Split(chunk, ':')| == 4
  }

  /** The items of the well-formed chunks, in order. */
  function Accepted(chunks: seq<string>): (items: seq<Item>)
    ensures |items| <= |chunks|
  {
    if chunks == [] then []
    else
      var last := chunks[|chunks| - 1];
      Accepted(chunks[..|chunks| - 1]) + if WellFormed(last) then [ItemOf(Split(last, ':'))] else []
  }

  /** Each of the first four fields overwrites one component; a missing field leaves its component. */
  lemma FieldsWritten(item: Item, a: string, b: string, c: string, d: string, more: seq<string>)
    ensures var i1 := item.(address := a);
      var i2 := i1.(port := if b == "" then 12345 else Strtol(b) % 0x1_0000);
      var i3 := i2.(fnCode := Strtol(c) % 0x1_0000_0000);
      var i4 := i3.(paramCount := Strtol(d) % 0x1_0000_0000);
      && WithFields(item, []) == item && WithFields(item, [a]) == i1 && WithFields(item, [a, b]) == i2
      && WithFields(item, [a, b, c]) == i3 && WithFields(item, [a, b, c, d]) == i4
      && WithFields(item, [a, b, c, d] + more) == i4
  {
    hide Strtol;
    var fields := [a, b, c, d] + more;
    assert fields[0] == a && fields[1] == b && fields[2] == c && fields[3] == d;
  }

  lemma NoFields(item: Item)
    ensures WithFields(item, []) == item
  {
  }

  /** Writes one field of the slot being filled. */
  method PutField(items: array<Item>, n: nat, idx: nat, token: string, ghost was: Item, ghost fields: seq<string>)
    requires n < items.Length && idx == |fields| && items[n] == WithFields(was, fields)
    modifies items
    ensures items[..] == old(items[..])[n := WithFields(was, fields + [token])]
  {
    if idx == 0 {
      items[n] := items[n].(address := token);
    } else if idx == 1 {
      items[n] := items[n].(port := Port(token));
    } else if idx == 2 {
      items[n] := items[n].(fnCode := Strtol(token) % 0x1_0000_0000);
    } else if idx == 3 {
      items[n] := items[n].(paramCount := Strtol(token) % 0x1_0000_0000);
    }
    assert items[n] == WithFields(was, fields + [token]);
  }

  /** Parses a chunk into slot `n`, field by field, also when the chunk turns out malformed. */
  method ParseChunk(items: array<Item>, n: nat, chunk: string) returns (ok: bool)
    requires n < items.Length
    modifies items
    ensures ok == WellFormed(chunk)
    ensures items[..] == old(items[..])[n := WithFields(old(items[n]), Split(chunk, ':'))]
  {
    hide Split, WithFields, Pieces;
    ghost var was, table := items[n], items[..];
    ghost var fields: seq<string> := [];
    var rest, idx := Some(chunk), 0;
    NoFields(was);
    PiecesOf(rest, ':');
    while rest.Some?
      invariant idx == |fields|
      invariant fields + Pieces(rest, ':') == Split(chunk, ':')
      invariant items[..] == table[n := WithFields(was, fields)]
      decreases if rest.None? then 0 else 1 + |rest.value|
    {
      PiecesOf(rest, ':');
      var token;
      token, rest := StrSep(rest.value, ':');
      TakenPiece(fields, token, Pieces(rest, ':'));
      PutField(items, n, idx, token, was, fields);
      fields := fields + [token];
      idx := idx + 1;
    }
    PiecesOf(rest, ':');
    assert fields + [] == fields;
    ok := idx == 4;
  }

  // ---------------------------------------------------------------- the whole specification

  /** What an accepted chunk leaves in a slot does not depend on the chunks rejected before it. */
  lemma NoTrace(item: Item, chunk: string)
    requires WellFormed(chunk) && !item.used
    ensures WithFields(item, Split(chunk, ':')) == ItemOf(Split(chunk, ':'))
  {
  }

  lemma NothingAccepted()
    ensures Accepted([]) == []
  {
  }

  lemma AcceptedNext(chunks: seq<string>, chunk: string)
    ensures Accepted(chunks + [chunk])
         == Accepted(chunks) + if WellFormed(chunk) then [ItemOf(Split(chunk, ':'))] else []
  {
    assert (chunks + [chunk])[..|chunks|] == chunks;
  }

  /** Parses one chunk and counts it if it was well formed. */
  method AddChunk(items: array<Item>, count: nat, chunk: string, ghost done: seq<string>) returns (count': nat)
    requires count < items.Length && items[..count] == Accepted(done)
    requires forall k :: 0 <= k < items.Length ==> !items[k].used
    modifies items
    ensures count' <= count + 1 && count' <= items.Length && items[..count'] == Accepted(done + [chunk])
    ensures forall k :: 0 <= k < items.Length ==> !items[k].used
  {
    ghost var table := items[..];
    AcceptedNext(done, chunk);
    var ok := ParseChunk(items, count, chunk);
    assert items[..count] == table[..count];
    if ok {
      NoTrace(table[count], chunk);
      count' := count + 1;
      assert items[..count'] == items[..count] + [items[count]];
    } else {
      count' := count;
    }
  }

  /** The table holds the items of exactly the well-formed chunks; every slot written was allocated. */
  method Parse(spec: string) returns (items: array<Item>, count: nat)
    ensures count <= items.Length == |Split(spec, ',')|
    ensures items[..count] == Accepted(Split(spec, ','))
    ensures forall k :: 0 <= k < items.Length ==> !items[k].used
  {
    hide Split, Accepted, Pieces, Occurrences;
    var separators := CountSeparators(spec, ',');
    NothingAccepted();
    SplitCount(spec, ',');
    items := new Item[separators + 1](_ => BLANK);
    count := 0;
    var rest := Some(spec);
    ghost var done: seq<string> := [];
    PiecesOf(rest, ',');
    while rest.Some?
      invariant count <= |done| && count <= items.Length
      invariant done + Pieces(rest, ',') == Split(spec, ',')
      invariant items[..count] == Accepted(done)
      invariant forall k :: 0 <= k < items.Length ==> !items[k].used
      decreases if rest.None? then 0 else 1 + |rest.value|
    {
      PiecesOf(rest, ',');
      var chunk;
      chunk, rest := StrSep(rest.value, ',');
      TakenPiece(done, chunk, Pieces(rest, ','));
      count := AddChunk(items, count, chunk, done);
      done := done + [chunk];
    }
    PiecesOf(rest, ',');
    assert done + [] == done;
  }

  predicate Fits(item: Item, fnCode: uint32) {
    !item.used && item.fnCode == fnCode
  }

  /** Item `k` is the first unused one with the function code. */
  predicate IsFirst(items: seq<Item>, k: nat, fnCode: uint32) {
    k < |items| && Fits(items[k], fnCode) && forall m :: 0 <= m < k ==> !Fits(items[m], fnCode)
  }

  /** The first unused item with the function code. */
  method FindUnused(items: array<Item>, count: nat, fnCode: uint32) returns (found: Option<nat>)
    requires count <= items.Length
    ensures found.Some? ==> found.value < count && IsFirst(items[..], found.value, fnCode)
    ensures found.None? ==> forall k :: 0 <= k < count ==> !IsFirst(items[..], k, fnCode)
  {
    for i := 0 to count
      invariant forall k :: 0 <= k < i ==> !Fits(items[k], fnCode)
    {
      if !items[i].used && items[i].fnCode == fnCode {
        return Some(i);
      }
    }
    found := None;
  }

  /**
   * Attaches a handle to the first unused item with the function code, unless it expects another
   * number of inputs; then nothing is attached, even if a later item would fit.
   */
  method Acquire(items: array<Item>, count: nat, fnCode: uint32, inputs: uint32) returns (found: Option<nat>)
    requires count <= items.Length
    modifies items
    ensures found.Some? <==> exists k ::
      0 <= k < count && IsFirst(old(items[..]), k, fnCode) && old(items[k].paramCount) == inputs
    ensures found.Some? ==>
      && found.value < count && IsFirst(old(items[..]), found.value, fnCode)
      && !old(items[found.value].used) && old(items[found.value].fnCode) == fnCode
      && (forall m :: 0 <= m < found.value ==> old(items[m].used) || old(items[m].fnCode) != fnCode)
      && old(items[found.value].paramCount) == inputs
      && items[..] == old(items[..])[found.value := old(items[found.value]).(used := true)]
    ensures found.None? ==>
      && items[..] == old(items[..])
      && forall k :: 0 <= k < count && IsFirst(items[..], k, fnCode) ==> items[k].paramCount != inputs
  {
    found := FindUnused(items, count, fnCode);
    if found.Some? {
      if items[found.value].paramCount != inputs {
        return None;
      }
      items[found.value] := items[found.value].(used := true);
    }
  }

  // ---------------------------------------------------------------- printing

  function Digit(n: nat): char
    requires n < 10
  {
    '0' + n as char
  }

  function Decimal(n: nat): (s: string)
    ensures |s| > 0 && forall i :: 0 <= i < |s| ==> IsDigit(s[i])
  {
    if n < 10 then [Digit(n)] else Decimal(n / 10) + [Digit(n % 10)]
  }

  function PrintItem(item: Item): string {
    item.address + ":" + Decimal(item.port) + ":" + Decimal(item.fnCode) + ":" + Decimal(item.paramCount)
  }

  function Print(items: seq<Item>): string
    requires |items| > 0
  {
    if |items| == 1 then PrintItem(items[0]) else PrintItem(items[0]) + "," + Print(items[1..])
  }

  lemma {:induction false} LeadingDecimal(n: nat)
    ensures Leading(Decimal(n), 0) == n
  {
    if n >= 10 {
      LeadingDecimal(n / 10);
      LeadingAppend(Decimal(n / 10), Digit(n % 10), 0);
    } else {
      assert Decimal(n)[1..] == "";
    }
  }

  lemma StrtolDecimal(n: nat)
    requires n < LONG_LIMIT
    ensures Strtol(Decimal(n)) == n
  {
    LeadingDecimal(n);
    assert IsDigit(Decimal(n)[0]);
  }

  lemma {:induction false} IndexAtSeparator(a: string, sep: char, rest: string)
    requires sep !in a
    ensures IndexOf(a + [sep] + rest, sep) == |a|
  {
    if a == "" {
    } else {
      assert (a + [sep] + rest)[1..] == a[1..] + [sep] + rest;
      IndexAtSeparator(a[1..], sep, rest);
    }
  }

  lemma SplitHead(a: string, sep: char, rest: string)
    requires sep !in a
    ensures Split(a + [sep] + rest, sep) == [a] + Split(rest, sep)
  {
    var s := a + [sep] + rest;
    IndexAtSeparator(a, sep, rest);
    assert s[..|a|] == a && s[|a| + 1..] == rest;
  }

  lemma SplitWhole(a: string, sep: char)
    requires sep !in a
    ensures Split(a, sep) == [a]
  {
  }

  /** An item that a specification can describe. */
  predicate Printable(item: Item) {
    ':' !in item.address && ',' !in item.address && !item.used
  }

  lemma JoinedFields(a: string, b: string, c: string, d: string)
    requires ':' !in a && ':' !in b && ':' !in c && ':' !in d
    ensures Split(a + ":" + b + ":" + c + ":" + d, ':') == [a, b, c, d]
  {
    hide Split;
    SplitWhole(d, ':');
    SplitHead(c, ':', d);
    SplitHead(b, ':', c + [':'] + d);
    SplitHead(a, ':', b + [':'] + (c + [':'] + d));
    assert a + ":" + b + ":" + c + ":" + d == a + [':'] + (b + [':'] + (c + [':'] + d));
  }

  lemma PrintedChunk(item: Item)
    requires Printable(item)
    ensures WellFormed(PrintItem(item)) && ItemOf(Split(PrintItem(item), ':')) == item
    ensures ',' !in PrintItem(item)
  {
    hide Split, Decimal, Strtol;
    JoinedFields(item.address, Decimal(item.port), Decimal(item.fnCode), Decimal(item.paramCount));
    StrtolDecimal(item.port);
    StrtolDecimal(item.fnCode);
    StrtolDecimal(item.paramCount);
  }

  lemma {:induction false} AcceptedFirst(chunk: string, rest: seq<string>)
    requires WellFormed(chunk)
    ensures Accepted([chunk] + rest) == [ItemOf(Split(chunk, ':'))] + Accepted(rest)
  {
    hide ItemOf, Split;
    if rest == [] {
      assert [chunk] + rest == [chunk] && [chunk][..0] == [];
    } else {
      var init := rest[..|rest| - 1];
      assert ([chunk] + rest)[..|rest|] == [chunk] + init;
      AcceptedFirst(chunk, init);
    }
  }

  /** Parsing the printed form of any non-empty list of items gives that list back. */
  lemma {:induction false} PrintParse(items: seq<Item>)
    requires |items| > 0 && forall i :: 0 <= i < |items| ==> Printable(items[i])
    ensures Accepted(Split(Print(items), ',')) == items
  {
    hide PrintItem, WellFormed, ItemOf, Split;
    PrintedChunk(items[0]);
    var chunk := PrintItem(items[0]);
    if |items| == 1 {
      SplitWhole(chunk, ',');
      AcceptedFirst(chunk, []);
      assert [chunk] + [] == [chunk];
    } else {
      PrintParse(items[1..]);
      SplitHead(chunk, ',', Print(items[1..]));
      assert chunk + [','] + Print(items[1..]) == Print(items);
      AcceptedFirst(chunk, Split(Print(items[1..]), ','));
    }
  }

  /** What a chunk of four fields says; numbers are cut to their fields' widths. */
  lemma ChunkSays(a: string, b: string, c: string, d: string)
    requires ':' !in a && ':' !in b && ':' !in c && ':' !in d
    ensures var chunk := a + ":" + b + ":" + c + ":" + d;
      && WellFormed(chunk)
      && ItemOf(Split(chunk, ':')) == Item(a, if b == "" then 12345 else Strtol(b) % 0x1_0000,
                                           Strtol(c) % 0x1_0000_0000, Strtol(d) % 0x1_0000_0000, false)
  {
    hide Split, Strtol;
    JoinedFields(a, b, c, d);
  }

  /** A port left empty means the default; a larger number is cut to 16 bits. */
  lemma Ports(n: nat)
    requires n < LONG_LIMIT
    ensures Port("") == 12345 && Port(Decimal(n)) == n % 0x1_0000
  {
    StrtolDecimal(n);
  }
}
