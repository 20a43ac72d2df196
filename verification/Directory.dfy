/** The user list: what the relay prints for LIST and what peers parse back. */
module Directory {
  import opened Text

  type Int32 = x: int | -0x8000_0000 <= x < 0x8000_0000

  datatype User = User(hashId: string, ip: string, port: Int32, publicKey: string)

  // ---------- to_string and stoi ----------

  predicate IsDigit(c: char) {
    '0' <= c <= '9'
  }

  function DigitOf(n: nat): (c: char)
    requires n < 10
    ensures IsDigit(c) && c as int - '0' as int == n
  {
    '0' + n as char
  }

  function Digits(n: nat): (s: string)
    ensures s != "" && forall i | 0 <= i < |s| :: IsDigit(s[i])
  {
    if n < 10 then [DigitOf(n)] else Digits(n / 10) + [DigitOf(n % 10)]
  }

  function ToString(n: int): string {
    if n < 0 then "-" + Digits(-n) else Digits(n)
  }

  predicate IsSpace(c: char) {
    c == ' ' || '\t' <= c <= '\r'
  }

  /** Blank, tab, line feed, vertical tab, form feed and carriage return. */
  lemma SpacesAre(c: char)
    ensures IsSpace(c) <==> c as int in {32, 9, 10, 11, 12, 13}
  {
  }

  /** The value read so far, followed by the leading digits of `s`. */
  function Leading(value: nat, s: string): nat
    decreases |s|
  {
    if s == "" || !IsDigit(s[0]) then value
    else Leading(value * 10 + (s[0] as int - '0' as int), s[1..])
  }

  /** `stoi`: spaces, a sign, digits up to the first other character. None is an
      exception: no digit, or a value that fits no int. */
  function StoI(s: string): (value: Option<Int32>) {
    if s == "" then None
    else if IsSpace(s[0]) then StoI(s[1..])
    else
      var signed := s[0] == '-' || s[0] == '+';
      var number := if signed then s[1..] else s;
      if number == "" || !IsDigit(number[0]) then None
      else
        var magnitude: int := Leading(0, number);
        var v := if s[0] == '-' then -magnitude else magnitude;
        if -0x8000_0000 <= v < 0x8000_0000 then Some(v) else None
  }

  lemma {:induction false} LeadingOfAppended(value: nat, s: string, c: char)
    requires forall i | 0 <= i < |s| :: IsDigit(s[i])
    requires IsDigit(c)
    ensures Leading(value, s + [c]) == Leading(value, s) * 10 + (c as int - '0' as int)
    decreases |s|
  {
    if s == "" {
      assert s + [c] == [c] && [c][1..] == "";
    } else {
      assert (s + [c])[1..] == s[1..] + [c];
      LeadingOfAppended(value * 10 + (s[0] as int - '0' as int), s[1..], c);
    }
  }

  lemma {:induction false} LeadingOfDigits(n: nat)
    ensures Leading(0, Digits(n)) == n
  {
    if n >= 10 {
      LeadingOfDigits(n / 10);
      LeadingOfAppended(0, Digits(n / 10), DigitOf(n % 10));
    } else {
      assert Digits(n)[1..] == "";
    }
  }

  /** A printed int reads back as itself, negative ones included. */
  lemma StoIToString(n: Int32)
    ensures StoI(ToString(n)) == Some(n)
    ensures '#' !in ToString(n)
  {
    var m: int := n;
    if m < 0 {
      LeadingOfDigits(-m);
      assert ToString(m)[1..] == Digits(-m);
    } else {
      LeadingOfDigits(n);
    }
  }

  /** The number that a string of digits stands for, last digit first. */
  function Value(digits: string): nat
    requires forall i | 0 <= i < |digits| :: IsDigit(digits[i])
  {
    if digits == "" then 0
    else
      var last := digits[|digits| - 1];
      assert IsDigit(last);
      Value(digits[..|digits| - 1]) * 10 + (last as int - '0' as int)
  }

  /** Any text without a digit in front. */
  predicate EndsNumber(tail: string) {
    tail == "" || !IsDigit(tail[0])
  }

  lemma {:induction false} LeadingStops(value: nat, digits: string, tail: string)
    requires (forall i | 0 <= i < |digits| :: IsDigit(digits[i])) && EndsNumber(tail)
    ensures Leading(value, digits + tail) == Leading(value, digits)
    decreases |digits|
  {
    if digits == "" {
      assert digits + tail == tail;
    } else {
      assert (digits + tail)[1..] == digits[1..] + tail;
      LeadingStops(value * 10 + (digits[0] as int - '0' as int), digits[1..], tail);
    }
  }

  lemma {:induction false} LeadingIsValue(digits: string)
    requires forall i | 0 <= i < |digits| :: IsDigit(digits[i])
    ensures Leading(0, digits) == Value(digits)
    decreases |digits|
  {
    if digits != "" {
      var front, last := digits[..|digits| - 1], digits[|digits| - 1];
      assert digits == front + [last];
      LeadingIsValue(front);
      LeadingOfAppended(0, front, last);
    }
  }

  /** Blanks, a sign or none, digits, and anything after them: the signed number,
      if an int can hold it. */
  lemma {:induction false} StoIReads(blanks: string, sign: string, digits: string, tail: string)
    requires (forall i | 0 <= i < |blanks| :: IsSpace(blanks[i])) && sign in {"", "+", "-"}
    requires digits != "" && (forall i | 0 <= i < |digits| :: IsDigit(digits[i])) && EndsNumber(tail)
    ensures var n: int := Value(digits);
            var v := if sign == "-" then -n else n;
            StoI(blanks + (sign + (digits + tail))) ==
            if -0x8000_0000 <= v < 0x8000_0000 then Some(v) else None
    decreases |blanks|
  {
    var s := blanks + (sign + (digits + tail));
    if blanks != "" {
      assert s[1..] == blanks[1..] + (sign + (digits + tail));
      StoIReads(blanks[1..], sign, digits, tail);
    } else {
      LeadingStops(0, digits, tail);
      LeadingIsValue(digits);
      assert s == sign + (digits + tail);
      assert (digits + tail)[0] == digits[0];
      if sign != "" {
        assert s[1..] == digits + tail && s[0] == sign[0];
      } else {
        assert s == digits + tail;
      }
    }
  }

  /** Blanks, a sign or none, and then no digit: an exception. */
  lemma {:induction false} StoIThrows(blanks: string, sign: string, tail: string)
    requires (forall i | 0 <= i < |blanks| :: IsSpace(blanks[i])) && sign in {"", "+", "-"} && EndsNumber(tail)
    requires sign == "" && tail != "" ==> !IsSpace(tail[0]) && tail[0] != '+' && tail[0] != '-'
    ensures StoI(blanks + (sign + tail)) == None
    decreases |blanks|
  {
    var s := blanks + (sign + tail);
    if blanks != "" {
      assert s[1..] == blanks[1..] + (sign + tail);
      StoIThrows(blanks[1..], sign, tail);
    } else if sign != "" {
      assert s[1..] == tail && s[0] == sign[0];
    } else {
      assert s == tail;
    }
  }

  // ---------- printing and parsing ----------

  function EntryFields(u: User): (fields: seq<string>)
    ensures |fields| == 4
  {
    [u.hashId, u.ip, ToString(u.port), u.publicKey]
  }

  function Fields(users: seq<User>): (fields: seq<string>)
    ensures |fields| == 4 * |users|
  {
    if users == [] then [] else EntryFields(users[0]) + Fields(users[1..])
  }

  function PrintList(users: seq<User>): string {
    Join(Fields(users), '#')
  }

  /** How a parse ends: with the text; in the exception that `stoi` throws; or
      in a read past the last field, which is undefined. */
  datatype Ending = Whole | Threw | Misread

  /** The entries that `updateList` pushed, and how it ended. */
  datatype Parsed = Parsed(users: seq<User>, ending: Ending)

  function ParseFields(segments: seq<string>): Parsed {
    if segments == [] then Parsed([], Whole)
    else if |segments| < 3 then Parsed([], Misread)
    else
      match StoI(segments[2])
      case None => Parsed([], Threw)
      case Some(port) =>
        if |segments| < 4 then Parsed([], Misread)
        else
          var rest := ParseFields(segments[4..]);
          Parsed([User(segments[0], segments[1], port, segments[3])] + rest.users, rest.ending)
  }

  function ParseList(text: string): Parsed {
    ParseFields(Split(text, '#'))
  }

  function PrintEntry(u: User): string {
    u.hashId + "#" + u.ip + "#" + ToString(u.port) + "#" + u.publicKey
  }

  /** The relay's printing loop. */
  method Print(users: seq<User>) returns (dataString: string)
    ensures dataString == PrintList(users)
  {
    dataString := "";
    var i := 0;
    while i < |users|
      invariant 0 <= i <= |users|
      invariant dataString == PrintList(users[..i])
    {
      PrintNext(users, i);
      if i != 0 {
        dataString := dataString + "#";
      }
      dataString := dataString + PrintEntry(users[i]);
      i := i + 1;
    }
    assert users[..i] == users;
  }

  lemma {:induction false} FieldsAppend(users: seq<User>, u: User)
    ensures Fields(users + [u]) == Fields(users) + EntryFields(u)
  {
    if users == [] {
      assert ([u])[1..] == [];
    } else {
      assert (users + [u])[1..] == users[1..] + [u];
      FieldsAppend(users[1..], u);
    }
  }

  lemma {:induction false} JoinConcat(a: seq<string>, b: seq<string>, d: char)
    requires a != [] && b != []
    ensures Join(a + b, d) == Join(a, d) + [d] + Join(b, d)
  {
    if |a| == 1 {
      assert (a + b)[1..] == b;
    } else {
      assert (a + b)[1..] == a[1..] + b;
      JoinConcat(a[1..], b, d);
    }
  }

  lemma JoinEntry(u: User)
    ensures Join(EntryFields(u), '#') == PrintEntry(u)
  {
    var f := EntryFields(u);
    assert f[1..][1..] == f[2..] && f[2..][1..] == f[3..];
    assert Join(f[3..], '#') == u.publicKey;
    assert Join(f[2..], '#') == ToString(u.port) + "#" + u.publicKey;
    assert Join(f[1..], '#') == u.ip + "#" + (ToString(u.port) + "#" + u.publicKey);
  }

  lemma PrintListOfOne(u: User)
    ensures PrintList([u]) == PrintEntry(u)
  {
    assert [u][1..] == [];
    assert Fields([u]) == EntryFields(u) + [] == EntryFields(u);
    JoinEntry(u);
  }

  function EntryLength(u: User): nat {
    |u.hashId| + |u.ip| + |ToString(u.port)| + |u.publicKey| + 3
  }

  lemma {:induction false} PrintedEntryNulFree(u: User)
    requires NulFree(u.hashId) && NulFree(u.ip) && NulFree(u.publicKey)
    ensures NulFree(PrintEntry(u))
  {
    var port := ToString(u.port);
    assert forall i | 0 <= i < |port| :: port[i] == '-' || IsDigit(port[i]);
    assert NulFree(port);
  }

  lemma PrintEntryLength(u: User)
    ensures |PrintEntry(u)| == EntryLength(u)
  {
  }

  lemma PrintNext(users: seq<User>, i: nat)
    requires i < |users|
    ensures PrintList(users[..i + 1]) == (if i == 0 then "" else PrintList(users[..i]) + "#") + PrintEntry(users[i])
  {
    assert users[..i + 1] == users[..i] + [users[i]];
    FieldsAppend(users[..i], users[i]);
    JoinEntry(users[i]);
    if i == 0 {
      assert users[..0] == [] && [] + EntryFields(users[0]) == EntryFields(users[0]);
      assert "" + PrintEntry(users[0]) == PrintEntry(users[0]);
    } else {
      JoinConcat(Fields(users[..i]), EntryFields(users[i]), '#');
    }
  }

  /** A parse with the users pushed before it. */
  function After(users: seq<User>, more: Parsed): Parsed {
    Parsed(users + more.users, more.ending)
  }

  lemma AfterNothing(more: Parsed)
    ensures After([], more) == more
  {
    assert [] + more.users == more.users;
  }

  lemma AfterNext(users: seq<User>, segments: seq<string>)
    requires |segments| >= 4 && StoI(segments[2]).Some?
    ensures After(users, ParseFields(segments)) ==
            After(users + [User(segments[0], segments[1], StoI(segments[2]).value, segments[3])],
                  ParseFields(segments[4..]))
  {
    var u := User(segments[0], segments[1], StoI(segments[2]).value, segments[3]);
    var rest := ParseFields(segments[4..]).users;
    assert users + ([u] + rest) == users + [u] + rest;
  }

  /** The peers' parsing loop, four segments a turn. */
  method Parse(text: string) returns (parsed: Parsed)
    ensures parsed == ParseList(text)
  {
    var segments := Segments(text, '#');
    var users: seq<User> := [];
    var i := 0;
    assert segments[0..] == segments;
    AfterNothing(ParseFields(segments));
    while i < |segments|
      invariant 0 <= i <= |segments|
      invariant ParseList(text) == After(users, ParseFields(segments[i..]))
    {
      if i + 2 >= |segments| {
        return Parsed(users, Misread);
      }
      var port := StoI(segments[i + 2]);
      if port.None? {
        return Parsed(users, Threw);
      }
      if i + 3 >= |segments| {
        return Parsed(users, Misread);
      }
      AfterNext(users, segments[i..]);
      assert segments[i..][4..] == segments[i + 4..];
      users := users + [User(segments[i], segments[i + 1], port.value, segments[i + 3])];
      i := i + 4;
    }
    parsed := Parsed(users, Whole);
  }

  predicate EntryPrintable(u: User) {
    '#' !in u.hashId && '#' !in u.ip && '#' !in u.publicKey
  }

  /** No field holds the separator, and the last public key is not empty. */
  predicate Printable(users: seq<User>) {
    && (forall i | 0 <= i < |users| :: EntryPrintable(users[i]))
    && (users != [] ==> users[|users| - 1].publicKey != "")
  }

  lemma ParseEntry(u: User, segments: seq<string>)
    ensures var rest := ParseFields(segments);
            ParseFields(EntryFields(u) + segments) == Parsed([u] + rest.users, rest.ending)
  {
    var first := EntryFields(u);
    StoIToString(u.port);
    assert (first + segments)[4..] == segments;
    assert forall i | 0 <= i < 4 :: (first + segments)[i] == first[i];
  }

  lemma {:induction false} ParseOfFields(users: seq<User>)
    ensures ParseFields(Fields(users)) == Parsed(users, Whole)
  {
    if users != [] {
      ParseOfFields(users[1..]);
      ParseEntry(users[0], Fields(users[1..]));
      assert [users[0]] + users[1..] == users;
    }
  }

  lemma {:induction false} ParsedFieldsAppear(segments: seq<string>)
    ensures ParseFields(segments).ending.Whole? ==> |segments| == 4 * |ParseFields(segments).users|
    ensures forall u <- ParseFields(segments).users ::
              u.hashId in segments && u.ip in segments && u.publicKey in segments
  {
    if |segments| >= 4 && StoI(segments[2]).Some? {
      ParsedFieldsAppear(segments[4..]);
    }
  }

  /** What a parse makes of whole entries and then fields that are too few, or whose
      port `stoi` rejects: the entries, and a misread or the exception. */
  lemma {:induction false} ParseBroken(users: seq<User>, rest: seq<string>)
    requires rest != [] && (|rest| < 4 || StoI(rest[2]).None?)
    ensures ParseFields(Fields(users) + rest) ==
            Parsed(users, if |rest| >= 3 && StoI(rest[2]).None? then Threw else Misread)
  {
    if users == [] {
      assert Fields(users) + rest == rest;
    } else {
      ParseBroken(users[1..], rest);
      ParseEntry(users[0], Fields(users[1..]) + rest);
      assert Fields(users) + rest == EntryFields(users[0]) + (Fields(users[1..]) + rest);
      assert [users[0]] + users[1..] == users;
    }
  }

  lemma {:induction false} FieldsSeparate(users: seq<User>)
    requires forall i | 0 <= i < |users| :: EntryPrintable(users[i])
    ensures forall f <- Fields(users) :: '#' !in f
    ensures users != [] ==> Fields(users)[|Fields(users)| - 1] == users[|users| - 1].publicKey
  {
    if users != [] {
      StoIToString(users[0].port);
      FieldsSeparate(users[1..]);
    }
  }

  lemma PrintedParses(users: seq<User>)
    requires Printable(users)
    ensures ParseList(PrintList(users)) == Parsed(users, Whole)
  {
    FieldsSeparate(users);
    ParseOfFields(users);
    SplitJoin(Fields(users), '#');
  }

  lemma EmptyLastKeyFails(users: seq<User>)
    requires users != [] && users[|users| - 1].publicKey == ""
    requires forall i | 0 <= i < |users| :: EntryPrintable(users[i])
    ensures ParseList(PrintList(users)) != Parsed(users, Whole)
  {
    FieldsSeparate(users);
    SplitJoinEmptyLast(Fields(users), '#');
    ParsedFieldsAppear(Split(PrintList(users), '#'));
  }

  lemma SeparatorFails(users: seq<User>, i: nat)
    requires i < |users| && !EntryPrintable(users[i])
    ensures ParseList(PrintList(users)) != Parsed(users, Whole)
  {
    ParsedFieldsAppear(Split(PrintList(users), '#'));
    assert users[i] in users;
  }

  /** A printed list parses back to itself exactly when no field holds a '#' and
      the last public key is not empty; every int is a port that survives. */
  lemma DirectoryRoundTrip(users: seq<User>)
    ensures ParseList(PrintList(users)) == Parsed(users, Whole) <==> Printable(users)
  {
    if Printable(users) {
      PrintedParses(users);
    } else if i: nat :| i < |users| && !EntryPrintable(users[i]) {
      SeparatorFails(users, i);
    } else {
      EmptyLastKeyFails(users);
    }
  }

  // ---------- lookup ----------

  /** The first entry with an id. */
  function Lookup(users: seq<User>, id: string): (found: Option<User>)
    ensures found.Some? ==> found.value in users && found.value.hashId == id
    ensures found.None? ==> forall u <- users :: u.hashId != id
  {
    if users == [] then None
    else if users[0].hashId == id then Some(users[0])
    else Lookup(users[1..], id)
  }

  /** The entry found is the first with the id. */
  lemma {:induction false} LookupFirst(users: seq<User>, i: nat)
    requires i < |users| && forall j | 0 <= j < i :: users[j].hashId != users[i].hashId
    ensures Lookup(users, users[i].hashId) == Some(users[i])
  {
    if i > 0 {
      LookupFirst(users[1..], i - 1);
    }
  }

  method UserExists(users: seq<User>, id: string) returns (exists_: bool)
    ensures exists_ == Lookup(users, id).Some?
  {
    var i := 0;
    while i < |users|
      invariant 0 <= i <= |users| && Lookup(users, id) == Lookup(users[i..], id)
    {
      if users[i].hashId == id {
        return true;
      }
      assert users[i..][1..] == users[i + 1..];
      i := i + 1;
    }
    exists_ := false;
  }

  method GetUser(users: seq<User>, id: string) returns (user: User)
    requires Lookup(users, id).Some?
    ensures user == Lookup(users, id).value
  {
    var i := 0;
    while true
      invariant 0 <= i <= |users| && Lookup(users, id) == Lookup(users[i..], id)
      decreases |users| - i
    {
      if users[i].hashId == id {
        return users[i];
      }
      assert users[i..][1..] == users[i + 1..];
      i := i + 1;
    }
  }
}
