/** Text as the program handles it: C strings, and the splitting done by
    `while (getline(stream, field, delimiter)) fields.push_back(field)`. */
module Text {

  datatype Option<+T> = None | Some(value: T)

  /** Pushes at the end of what a loop has built; `rest` is what later turns will push. */
  function Append<T>(done: seq<T>, piece: seq<T>, ghost rest: seq<T>): (more: seq<T>)
    ensures more + rest == done + (piece + rest)
  {
    done + piece
  }

  predicate NulFree(s: string) {
    '\0' !in s
  }

  /** The C string held in a buffer: the characters before its first NUL. */
  function CString(buffer: string): (s: string)
    ensures s <= buffer && NulFree(s)
    ensures |s| < |buffer| ==> buffer[|s|] == '\0'
  {
    if buffer == "" || buffer[0] == '\0' then "" else [buffer[0]] + CString(buffer[1..])
  }

  /** A buffer that starts with a NUL-free string and a NUL holds exactly that string. */
  lemma {:induction false} CStringOfTerminated(s: string, rest: string)
    requires NulFree(s)
    requires rest == "" || rest[0] == '\0'
    ensures CString(s + rest) == s
  {
    if s == "" {
      assert s + rest == rest;
    } else {
      assert (s + rest)[1..] == s[1..] + rest;
      CStringOfTerminated(s[1..], rest);
    }
  }

  lemma CStringOfNulFree(s: string)
    requires NulFree(s)
    ensures CString(s) == s
  {
    CStringOfTerminated(s, "");
    assert s + "" == s;
  }

  /** Characters past the first NUL never matter. */
  lemma {:induction false} CStringIgnoresTail(s: string, tail: string)
    requires tail == "" || tail[0] == '\0'
    ensures CString(s + tail) == CString(s)
  {
    if s == "" {
      assert s + tail == tail;
    } else {
      assert (s + tail)[1..] == s[1..] + tail;
      CStringIgnoresTail(s[1..], tail);
    }
  }

  /** Position of the first `d` in `s`, or |s|. */
  function Find(s: string, d: char): (i: nat)
    ensures i <= |s|
    ensures forall j | 0 <= j < i :: s[j] != d
    ensures i < |s| ==> s[i] == d
  {
    if s == "" || s[0] == d then 0
    else
      Find(s[1..], d) + 1
  }

  /** The fields `getline` yields: a trailing delimiter opens no further field. */
  function Split(s: string, d: char): (fields: seq<string>)
    ensures s != "" ==> fields != []
    ensures forall f <- fields :: d !in f
    ensures forall f <- fields, x <- f :: x in s
    decreases |s|
  {
    if s == "" then []
    else
      var i := Find(s, d);
      if i == |s| then
        assert s[..i] == s;
        [s]
      else
        [s[..i]] + Split(s[i + 1..], d)
  }

  function Join(fields: seq<string>, d: char): string {
    if fields == [] then ""
    else if |fields| == 1 then fields[0]
    else fields[0] + [d] + Join(fields[1..], d)
  }

  /** What `getline` leaves in the stream. */
  function After(s: string, d: char): string {
    var i := Find(s, d);
    if i == |s| then "" else s[i + 1..]
  }

  lemma SplitStep(s: string, d: char)
    requires s != ""
    ensures Split(s, d) == [s[..Find(s, d)]] + Split(After(s, d), d)
  {
    assert s[..|s|] == s;
  }

  /** The loop that fills `segments`, `blocks` and `encryptedBlocks`; `rest` is
      what the string stream has not delivered yet. */
  method Segments(s: string, d: char) returns (fields: seq<string>)
    ensures fields == Split(s, d)
  {
    fields := [];
    var rest := s;
    while rest != ""
      invariant fields + Split(rest, d) == Split(s, d)
      decreases |rest|
    {
      SplitStep(rest, d);
      fields := Append(fields, [rest[..Find(rest, d)]], Split(After(rest, d), d));
      rest := After(rest, d);
    }
  }

  lemma FindFirst(a: string, d: char, b: string)
    requires d !in a
    ensures Find(a + [d] + b, d) == |a|
  {
    var s := a + [d] + b;
    var i := Find(s, d);
    assert s[|a|] == d && forall j | 0 <= j < |a| :: s[j] == a[j];
  }

  lemma SplitCons(a: string, d: char, b: string)
    requires d !in a
    ensures Split(a + [d] + b, d) == [a] + Split(b, d)
  {
    var s := a + [d] + b;
    FindFirst(a, d, b);
    assert s[..|a|] == a && s[|a| + 1..] == b;
  }

  lemma SplitSingle(a: string, d: char)
    requires d !in a && a != ""
    ensures Split(a, d) == [a]
  {
    assert a[..|a|] == a;
  }

  /** Two fields, as inside the third hop's section. */
  lemma SplitTwo(a: string, b: string, d: char)
    requires d !in a && d !in b && b != ""
    ensures Split(a + [d] + b, d) == [a, b]
  {
    SplitCons(a, d, b);
    SplitSingle(b, d);
  }

  /** Three fields, as inside the secret packet. */
  lemma SplitThree(a: string, b: string, e: string, d: char)
    requires d !in a && d !in b && d !in e && e != ""
    ensures Split(a + [d] + b + [d] + e, d) == [a, b, e]
  {
    assert a + [d] + b + [d] + e == a + [d] + (b + [d] + e);
    SplitCons(a, d, b + [d] + e);
    SplitTwo(b, e, d);
  }

  /** Four fields, as in a REGISTER. */
  lemma SplitFour(a: string, b: string, e: string, f: string, d: char)
    requires d !in a && d !in b && d !in e && d !in f && f != ""
    ensures Split(a + [d] + (b + [d] + (e + [d] + f)), d) == [a, b, e, f]
  {
    SplitTwo(e, f, d);
    SplitCons(b, d, e + [d] + f);
    SplitCons(a, d, b + [d] + (e + [d] + f));
  }

  lemma CutAt(s: string, d: char, i: nat, more: string)
    requires i < |s| && s[i] == d
    ensures s + [d] + more == s[..i] + [d] + (s[i + 1..] + [d] + more)
  {
    assert s == s[..i] + [d] + s[i + 1..];
  }

  lemma ConsAppend(first: string, a: seq<string>, b: seq<string>)
    ensures [first] + (a + b) == [first] + a + b
  {
  }

  /** One field of `s`, then the rest of it with what follows. */
  lemma SplitPast(s: string, d: char, more: string)
    requires s != "" && Find(s, d) < |s|
    ensures Split(s + [d] + more, d) == [s[..Find(s, d)]] + Split(After(s, d) + [d] + more, d)
  {
    var i := Find(s, d);
    CutAt(s, d, i, more);
    SplitCons(s[..i], d, s[i + 1..] + [d] + more);
  }

  /** Fields behind a text that does not end in a delimiter come behind its own. */
  lemma {:induction false} SplitAppend(s: string, d: char, more: string)
    requires s != "" && s[|s| - 1] != d
    ensures Split(s + [d] + more, d) == Split(s, d) + Split(more, d)
    decreases |s|
  {
    SplitStep(s, d);
    if Find(s, d) == |s| {
      assert s[..|s|] == s;
      SplitCons(s, d, more);
    } else {
      var rest := After(s, d);
      SplitPast(s, d, more);
      SplitAppend(rest, d, more);
      ConsAppend(s[..Find(s, d)], Split(rest, d), Split(more, d));
    }
  }

  predicate Splittable(fields: seq<string>, d: char) {
    && (forall f <- fields :: d !in f)
    && (fields != [] ==> fields[|fields| - 1] != "")
  }

  lemma {:induction false} SplitJoin(fields: seq<string>, d: char)
    requires Splittable(fields, d)
    ensures Split(Join(fields, d), d) == fields
  {
    if |fields| == 1 {
      SplitSingle(fields[0], d);
    } else if |fields| > 1 {
      SplitJoin(fields[1..], d);
      SplitCons(fields[0], d, Join(fields[1..], d));
    }
  }

  lemma DropLastOfCons(first: string, rest: seq<string>)
    requires rest != []
    ensures ([first] + rest)[..|rest|] == [first] + rest[..|rest| - 1]
  {
  }

  /** Joining with delimiter-free fields and an empty last field loses that last field. */
  lemma {:induction false} SplitJoinEmptyLast(fields: seq<string>, d: char)
    requires fields != [] && fields[|fields| - 1] == ""
    requires forall f <- fields :: d !in f
    ensures Split(Join(fields, d), d) == fields[..|fields| - 1]
  {
    if |fields| > 1 {
      var rest := fields[1..];
      SplitJoinEmptyLast(rest, d);
      SplitCons(fields[0], d, Join(rest, d));
      assert fields == [fields[0]] + rest;
      DropLastOfCons(fields[0], rest);
    }
  }

  /** Splitting undoes joining exactly when no field holds the delimiter and
      the last field is not empty. */
  lemma SplitUndoesJoin(fields: seq<string>, d: char)
    ensures Split(Join(fields, d), d) == fields <==> Splittable(fields, d)
  {
    if Splittable(fields, d) {
      SplitJoin(fields, d);
    } else if forall f <- fields :: d !in f {
      SplitJoinEmptyLast(fields, d);
      assert |Split(Join(fields, d), d)| == |fields| - 1;
    } else {
      var f :| f in fields && d in f;
      assert f !in Split(Join(fields, d), d);
    }
  }
}
