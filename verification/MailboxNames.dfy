/** Mailbox names and the directory names they are stored under. */
module MailboxNames {
  import opened Text

  const INBOX := "INBOX"

  /** INBOX in any casing is one mailbox; other names keep the client's spelling. */
  function Canonical(name: string): string {
    var trimmed := Trim(name, {'/'});
    if EqualFold(trimmed, INBOX) then INBOX else trimmed
  }

  lemma CanonicalIdempotent(name: string)
    ensures Canonical(Canonical(name)) == Canonical(name)
  {
    TrimIdempotent(name, {'/'});
    CanonicalOfInbox();
  }

  lemma CanonicalOfInbox()
    ensures Canonical(INBOX) == INBOX
  {
    TrimUntouched(INBOX, {'/'});
  }

  predicate Safe(c: char) {
    'A' <= c <= 'Z' || 'a' <= c <= 'z' || '0' <= c <= '9' || c == '.' || c == '-' || c == '_'
  }

  // ---- hexadecimal

  predicate IsHex(c: char) {
    '0' <= c <= '9' || 'A' <= c <= 'F' || 'a' <= c <= 'f'
  }

  function HexDigit(d: nat): (c: char)
    requires d < 16
    ensures IsHex(c) && HexValue(c) == d
  {
    if d < 10 then (d + '0' as int) as char else (d - 10 + 'A' as int) as char
  }

  function HexValue(c: char): (d: nat)
    requires IsHex(c)
    ensures d < 16
  {
    if '0' <= c <= '9' then c as int - '0' as int
    else if 'A' <= c <= 'F' then c as int - 'A' as int + 10
    else c as int - 'a' as int + 10
  }

  /** Upper-case hexadecimal without leading zeros. */
  function Hex(n: nat): (r: string)
    ensures forall i :: 0 <= i < |r| ==> IsHex(r[i])
    ensures |r| == 1 <==> n < 16
    ensures |r| <= 2 <==> n < 256
    ensures |r| > 0
  {
    if n < 16 then [HexDigit(n)] else Hex(n / 16) + [HexDigit(n % 16)]
  }

  /** Two digits at least, as the format verb %02X prints. */
  function Hex2(n: nat): string {
    if n < 16 then "0" + Hex(n) else Hex(n)
  }

  // ---- encoding

  function EncodeChar(c: char): string {
    if Safe(c) then [c] else "%" + Hex2(c as int)
  }

  /** The directory name of a mailbox. */
  function Encode(name: string): string {
    if name == [] then [] else EncodeChar(name[0]) + Encode(name[1..])
  }

  lemma {:induction false} EncodeExtend(name: string, c: char)
    ensures Encode(name + [c]) == Encode(name) + EncodeChar(c)
  {
    if name == [] {
      assert [c][1..] == [];
    } else {
      assert (name + [c])[1..] == name[1..] + [c];
      EncodeExtend(name[1..], c);
    }
  }

  method EncodeMailboxName(name: string) returns (dir: string)
    ensures dir == Encode(name)
  {
    dir := "";
    for i := 0 to |name|
      invariant dir == Encode(name[..i])
    {
      EncodeExtend(name[..i], name[i]);
      assert name[..i + 1] == name[..i] + [name[i]];
      var c := name[i];
      if 'A' <= c <= 'Z' || 'a' <= c <= 'z' || '0' <= c <= '9' || c == '.' || c == '-' || c == '_' {
        dir := dir + [c];
      } else {
        dir := dir + "%" + Hex2(c as int);
      }
    }
    assert name[..|name|] == name;
  }

  /** True when a percent escape can be read at the head: two more characters
      follow and both are hexadecimal digits. */
  predicate Escaped(dir: string) {
    |dir| > 2 && dir[0] == '%' && IsHex(dir[1]) && IsHex(dir[2])
  }

  function EscapeValue(dir: string): char
    requires Escaped(dir)
  {
    (16 * HexValue(dir[1]) + HexValue(dir[2])) as char
  }

  function Decode(dir: string): string {
    if dir == [] then []
    else if Escaped(dir) then [EscapeValue(dir)] + Decode(dir[3..])
    else [dir[0]] + Decode(dir[1..])
  }

  lemma DecodeAt(dir: string, i: nat)
    requires i < |dir|
    ensures Escaped(dir[i..]) ==> Decode(dir[i..]) == [EscapeValue(dir[i..])] + Decode(dir[i + 3..])
    ensures !Escaped(dir[i..]) ==> Decode(dir[i..]) == [dir[i]] + Decode(dir[i + 1..])
  {
    var rest := dir[i..];
    if Escaped(rest) {
      assert rest[3..] == dir[i + 3..];
    } else {
      assert rest[1..] == dir[i + 1..];
    }
  }

  method DecodeMailboxName(dir: string) returns (name: string)
    ensures name == Decode(dir)
  {
    name := "";
    var i := 0;
    while i < |dir|
      invariant 0 <= i <= |dir|
      invariant name + Decode(dir[i..]) == Decode(dir)
    {
      DecodeAt(dir, i);
      var byte := dir[i];
      if dir[i] == '%' && i + 2 < |dir| && IsHex(dir[i + 1]) && IsHex(dir[i + 2]) {
        assert Escaped(dir[i..]);
        byte := EscapeValue(dir[i..i + 3]);
        i := i + 3;
      } else {
        assert !Escaped(dir[i..]);
        i := i + 1;
      }
      AppendAssociates(name, byte, Decode(dir[i..]));
      name := name + [byte];
    }
  }

  lemma AppendAssociates(a: string, c: char, b: string)
    ensures a + ([c] + b) == a + [c] + b
  {
  }

  // ---- round trip

  predicate Latin1(name: string) {
    forall i :: 0 <= i < |name| ==> name[i] as int <= 0xFF
  }

  /** What becomes of one character on the way to disk and back. */
  function Image(c: char): (r: string)
    ensures c as int <= 0xFF <==> r == [c]
    ensures |r| == 1 <==> c as int <= 0xFF
    ensures |r| > 0
  {
    if c as int <= 0xFF then [c]
    else
      var h := Hex(c as int);
      [(16 * HexValue(h[0]) + HexValue(h[1])) as char] + h[2..]
  }

  lemma {:induction false} DecodePlain(plain: string, rest: string)
    requires forall i :: 0 <= i < |plain| ==> plain[i] != '%'
    ensures Decode(plain + rest) == plain + Decode(rest)
  {
    if plain == [] {
      assert plain + rest == rest;
    } else {
      assert (plain + rest)[1..] == plain[1..] + rest;
      DecodePlain(plain[1..], rest);
    }
  }

  lemma Hex2Latin1(n: nat)
    requires n < 256
    ensures |Hex2(n)| == 2 && IsHex(Hex2(n)[0]) && IsHex(Hex2(n)[1])
    ensures 16 * HexValue(Hex2(n)[0]) + HexValue(Hex2(n)[1]) == n
  {
    if n >= 16 {
      assert Hex(n / 16) == [HexDigit(n / 16)];
    }
  }

  lemma DecodeEncodedChar(c: char, rest: string)
    ensures Decode(EncodeChar(c) + rest) == Image(c) + Decode(rest)
  {
    if Safe(c) {
      DecodePlain([c], rest);
    } else {
      var h := Hex2(c as int);
      DecodeEscape(h, rest);
      if c as int <= 0xFF {
        Hex2Latin1(c as int);
        assert h[2..] == [];
      }
    }
  }

  lemma DecodeEscape(h: string, rest: string)
    requires |h| >= 2 && forall i :: 0 <= i < |h| ==> IsHex(h[i])
    ensures Decode("%" + h + rest) == [(16 * HexValue(h[0]) + HexValue(h[1])) as char] + h[2..] + Decode(rest)
  {
    var dir := "%" + h + rest;
    assert dir[1] == h[0] && dir[2] == h[1];
    assert dir[3..] == h[2..] + rest;
    DecodePlain(h[2..], rest);
    AppendAssociates([], EscapeValue(dir), h[2..] + Decode(rest));
    assert [EscapeValue(dir)] + (h[2..] + Decode(rest)) == [EscapeValue(dir)] + h[2..] + Decode(rest);
  }

  function Images(name: string): string {
    if name == [] then [] else Image(name[0]) + Images(name[1..])
  }

  lemma {:induction false} DecodeOfEncode(name: string)
    ensures Decode(Encode(name)) == Images(name)
  {
    if name != [] {
      DecodeEncodedChar(name[0], Encode(name[1..]));
      DecodeOfEncode(name[1..]);
    }
  }

  lemma {:induction false} ImagesLength(name: string)
    ensures |Images(name)| >= |name|
    ensures Images(name) == name <==> Latin1(name)
    ensures |Images(name)| == |name| ==> Latin1(name)
  {
    if name != [] {
      ImagesLength(name[1..]);
      assert name == [name[0]] + name[1..];
      if Latin1(name[1..]) && name[0] as int <= 0xFF {
        assert Images(name) == [name[0]] + name[1..];
      }
    }
  }

  /** A name survives the trip to disk and back exactly when every code point is at
      most U+00FF: larger ones print more than the two digits that are read back. */
  lemma RoundTrip(name: string)
    ensures Decode(Encode(name)) == name <==> Latin1(name)
  {
    DecodeOfEncode(name);
    ImagesLength(name);
  }

  /** Distinct names in that range get distinct directories. */
  lemma EncodeInjective(a: string, b: string)
    requires Latin1(a) && Latin1(b)
    ensures Encode(a) == Encode(b) <==> a == b
  {
    RoundTrip(a);
    RoundTrip(b);
  }

  /** Outside it two mailboxes can share a directory: the euro sign and a space
      followed by "AC" both become %20AC. */
  lemma EuroCollides()
    ensures Encode("\U{20AC}") == Encode(" AC") && "\U{20AC}" != " AC"
  {
    assert Hex(0x20) == Hex(0x2) + [HexDigit(0)];
    assert Hex(0x20A) == Hex(0x20) + [HexDigit(0xA)];
    assert Hex(0x20AC) == Hex(0x20A) + [HexDigit(0xC)];
    assert Encode("\U{20AC}") == "%20AC";
    assert " AC"[1..] == "AC" && "AC"[1..] == "C" && "C"[1..] == "";
    assert Encode(" AC") == "%20" + ("A" + ("C" + ""));
  }

  // ---- listing

  /** Byte order of UTF-8 strings is code point order. */
  predicate LexLe(a: string, b: string) {
    a == [] || (b != [] && (a[0] < b[0] || (a[0] == b[0] && LexLe(a[1..], b[1..]))))
  }

  lemma {:induction false} LexTotal(a: string, b: string)
    ensures LexLe(a, b) || LexLe(b, a)
    ensures LexLe(a, b) && LexLe(b, a) ==> a == b
  {
    if a != [] && b != [] && a[0] == b[0] {
      LexTotal(a[1..], b[1..]);
      assert a == [a[0]] + a[1..] && b == [b[0]] + b[1..];
    }
  }

  lemma {:induction false} LexTransitive(a: string, b: string, c: string)
    requires LexLe(a, b) && LexLe(b, c)
    ensures LexLe(a, c)
  {
    if a != [] && a[0] == b[0] && b[0] == c[0] {
      LexTransitive(a[1..], b[1..], c[1..]);
    }
  }

  predicate Sorted(names: seq<string>) {
    forall i, j :: 0 <= i < j < |names| ==> LexLe(names[i], names[j])
  }

  function Insert(name: string, names: seq<string>): (r: seq<string>)
    ensures multiset(r) == multiset(names) + multiset{name}
  {
    if names == [] then [name]
    else if LexLe(name, names[0]) then
      [name] + names
    else
      assert names == [names[0]] + names[1..];
      [names[0]] + Insert(name, names[1..])
  }

  lemma {:induction false} InsertSorted(name: string, names: seq<string>)
    requires Sorted(names)
    ensures Sorted(Insert(name, names))
  {
    if names != [] {
      if LexLe(name, names[0]) {
        forall j | 0 <= j < |names| ensures LexLe(name, names[j]) {
          if j > 0 { LexTransitive(name, names[0], names[j]); }
        }
      } else {
        LexTotal(name, names[0]);
        InsertSorted(name, names[1..]);
        var tail := Insert(name, names[1..]);
        forall j | 0 <= j < |tail| ensures LexLe(names[0], tail[j]) {
          assert tail[j] in multiset(tail);
          if tail[j] != name {
            assert tail[j] in multiset(names[1..]);
            var k :| 0 <= k < |names[1..]| && names[1..][k] == tail[j];
            assert LexLe(names[0], names[k + 1]);
          }
        }
      }
    }
  }

  /** The sort package's contract: same elements, ascending. */
  function Sort(names: seq<string>): (r: seq<string>)
    ensures multiset(r) == multiset(names)
    ensures Sorted(r)
  {
    if names == [] then []
    else
      var rest := Sort(names[1..]);
      assert names == [names[0]] + names[1..];
      InsertSorted(names[0], rest);
      Insert(names[0], rest)
  }

  /** The decoded directory names, leaving INBOX out. */
  function Others(dirs: seq<string>): seq<string> {
    if dirs == [] then []
    else
      var name := Decode(dirs[|dirs| - 1]);
      var before := Others(dirs[..|dirs| - 1]);
      if Canonical(name) == INBOX then before else before + [name]
  }

  function Listing(dirs: seq<string>): seq<string> {
    [INBOX] + Sort(Others(dirs))
  }

  /** `dirs` is the content of the account's mail directory, in any order. */
  method ListMailboxes(dirs: seq<string>) returns (names: seq<string>)
    ensures names == Listing(dirs)
  {
    names := [INBOX];
    for i := 0 to |dirs|
      invariant names == [INBOX] + Others(dirs[..i])
    {
      assert dirs[..i + 1][..i] == dirs[..i];
      var name := DecodeMailboxName(dirs[i]);
      if Canonical(name) == INBOX {
        continue;
      }
      names := names + [name];
    }
    assert dirs[..|dirs|] == dirs;
    assert names[1..] == Others(dirs);
    names := names[..1] + Sort(names[1..]);
  }

  /** Names as the store keeps them: in canonical form, and read back as written. */
  ghost predicate AllCanonical(names: set<string>) {
    forall n :: n in names ==> Canonical(n) == n
  }

  ghost predicate AllReadBack(names: set<string>) {
    forall n :: n in names ==> Decode(Encode(n)) == n
  }

  ghost predicate NoDuplicates(s: seq<string>) {
    forall i, j :: 0 <= i < j < |s| ==> s[i] != s[j]
  }

  function EncodeAll(names: seq<string>): (dirs: seq<string>)
    ensures |dirs| == |names|
  {
    seq(|names|, i requires 0 <= i < |names| => Encode(names[i]))
  }

  /** The stored names that are not INBOX, in the order given. */
  function NotInbox(names: seq<string>): seq<string> {
    if names == [] then []
    else
      var before := NotInbox(names[..|names| - 1]);
      if names[|names| - 1] == INBOX then before else before + [names[|names| - 1]]
  }

  lemma {:induction false} NotInboxMeaning(names: seq<string>)
    requires NoDuplicates(names)
    ensures NoDuplicates(NotInbox(names))
    ensures forall n :: n in NotInbox(names) <==> n in names && n != INBOX
  {
    if names != [] {
      var init, name := names[..|names| - 1], names[|names| - 1];
      NotInboxMeaning(init);
      assert names == init + [name];
      assert name !in init;
    }
  }

  lemma {:induction false} OthersAreStored(names: seq<string>)
    requires forall i :: 0 <= i < |names| ==> Decode(Encode(names[i])) == names[i]
    requires forall i :: 0 <= i < |names| ==> Canonical(names[i]) == names[i]
    ensures Others(EncodeAll(names)) == NotInbox(names)
  {
    if names != [] {
      var init := names[..|names| - 1];
      OthersAreStored(init);
      var dirs := EncodeAll(names);
      assert dirs[..|dirs| - 1] == EncodeAll(init);
    }
  }

  lemma SortedListing(others: seq<string>)
    requires NoDuplicates(others) && INBOX !in others
    ensures var listing := [INBOX] + Sort(others);
            && listing[0] == INBOX && Sorted(listing[1..]) && NoDuplicates(listing)
            && forall n :: n in listing <==> n == INBOX || n in others
  {
    var sorted := Sort(others);
    UniqueMultiset(others);
    SameMultisetUnique(others, sorted);
    SameMembers(others, sorted);
    assert ([INBOX] + sorted)[1..] == sorted;
  }

  /** LIST shows INBOX first and then exactly the stored names, ascending and
      without repetition, whatever order the directory is read in. */
  lemma ListingIsTheStoredNames(names: seq<string>)
    requires forall i :: 0 <= i < |names| ==> Decode(Encode(names[i])) == names[i]
    requires forall i :: 0 <= i < |names| ==> Canonical(names[i]) == names[i]
    requires NoDuplicates(names)
    ensures var listing := Listing(EncodeAll(names));
            && listing[0] == INBOX && Sorted(listing[1..]) && NoDuplicates(listing)
            && forall n :: n in listing <==> n == INBOX || n in names
  {
    OthersAreStored(names);
    NotInboxMeaning(names);
    SortedListing(NotInbox(names));
  }

  lemma SameMembers(s: seq<string>, t: seq<string>)
    requires multiset(s) == multiset(t)
    ensures forall x :: x in s <==> x in t
  {
    forall x ensures x in s <==> x in t {
      assert x in s <==> x in multiset(s);
      assert x in t <==> x in multiset(t);
    }
  }

  lemma {:induction false} UniqueMultiset(s: seq<string>)
    requires NoDuplicates(s)
    ensures forall x :: multiset(s)[x] <= 1
  {
    if s != [] {
      assert s == [s[0]] + s[1..];
      UniqueMultiset(s[1..]);
      assert s[0] !in s[1..];
    }
  }

  lemma SameMultisetUnique(s: seq<string>, t: seq<string>)
    requires multiset(s) == multiset(t)
    requires forall x :: multiset(s)[x] <= 1
    ensures NoDuplicates(t)
  {
    forall i, j | 0 <= i < j < |t| ensures t[i] != t[j] {
      assert t == t[..i] + [t[i]] + t[i + 1..j] + [t[j]] + t[j + 1..];
      assert multiset(t)[t[i]] == multiset(s)[t[i]];
    }
  }
}
