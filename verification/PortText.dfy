/** Port lists as text: what a list means, which lists are refused, and that ranges printed and read again
    are the same ranges. */
module PortText {
  import opened PortSet
  import opened Strings

  predicate IsDigit(c: char) { '0' <= c <= '9' }

  function Split(s: string, sep: char): (parts: seq<string>)
    ensures |parts| > 0
  {
    if s == "" then [""]
    else
      var rest := Split(s[1..], sep);
      if s[0] == sep then [""] + rest else [[s[0]] + rest[0]] + rest[1..]
  }

  function Join(items: seq<string>, sep: char): string
    requires items != []
  {
    if |items| == 1 then items[0] else items[0] + [sep] + Join(items[1..], sep)
  }

  predicate Free(s: string, sep: char) { forall i :: 0 <= i < |s| ==> s[i] != sep }

  // ----- Numbers -----

  predicate AllDigits(s: string) { forall i :: 0 <= i < |s| ==> IsDigit(s[i]) }

  function Digit(n: int): (c: char)
    requires 0 <= n < 10
    ensures IsDigit(c)
  {
    '0' + n as char
  }

  function Digits(n: nat): (s: string)
    ensures s != "" && AllDigits(s)
  {
    if n < 10 then [Digit(n)] else Digits(n / 10) + [Digit(n % 10)]
  }

  function Number(s: string): nat
    requires AllDigits(s)
  {
    if s == "" then 0
    else
      Number(s[..|s| - 1]) * 10 + (s[|s| - 1] - '0') as int
  }

  lemma {:induction false} NumberOfDigits(n: nat)
    ensures Number(Digits(n)) == n
  {
    var s := Digits(n);
    if n < 10 {
      assert s[..0] == "";
    } else {
      NumberOfDigits(n / 10);
      assert s[..|s| - 1] == Digits(n / 10);
    }
  }

  // ----- Reading -----

  datatype MaybePort = Port(value: int) | BadPort

  datatype MaybeRange = Ports(range: Range) | BadRange

  function ReadPort(raw: string): MaybePort {
    var text := Trim(raw);
    if text == "" || !AllDigits(text) then BadPort
    else if 1 <= Number(text) <= 65535 then Port(Number(text)) else BadPort
  }

  function ReadItem(item: string): MaybeRange {
    var parts := Split(Trim(item), '-');
    if |parts| > 2 then BadRange
    else
      var first := ReadPort(parts[0]);
      var last := if |parts| == 2 then ReadPort(parts[1]) else first;
      if first.BadPort? || last.BadPort? || first.value > last.value then BadRange
      else Ports(Range(first.value, last.value))
  }

  // Every item of the list is a port or a range.
  predicate Readable(raw: string) { forall item <- Split(raw, ',') :: ReadItem(item).Ports? }

  // The ports of some item.
  ghost predicate Listed(raw: string, port: int) {
    exists item <- Split(raw, ',') :: ReadItem(item).Ports? && ReadItem(item).range.Contains(port)
  }

  method Parse(raw: string) returns (ok: bool, ranges: seq<Range>)
    ensures ok <==> Readable(raw)
    ensures ok ==> Canonical(ranges) && forall port :: Covers(ranges, port) <==> Listed(raw, port)
  {
    var items := Split(raw, ',');
    var read: seq<Range> := [];
    ranges := [];
    for i := 0 to |items|
      invariant |read| == i && AllValid(read)
      invariant forall k :: 0 <= k < i ==> ReadItem(items[k]) == Ports(read[k])
    {
      assert items[i] in items;
      var r := ReadItem(items[i]);
      if r.BadRange? {
        return false, [];
      }
      read := read + [r.range];
    }
    ok := true;
    ranges := Merge(read);
    forall port ensures Covers(read, port) <==> Listed(raw, port) {
      ListedIsCovered(raw, read, port);
    }
  }

  lemma {:induction false} ListedIsCovered(raw: string, read: seq<Range>, port: int)
    requires |read| == |Split(raw, ',')|
    requires forall k :: 0 <= k < |read| ==> ReadItem(Split(raw, ',')[k]) == Ports(read[k])
    ensures Covers(read, port) <==> Listed(raw, port)
  {
  }

  // ----- Printing -----

  function Text(r: Range): string
    requires r.from >= 0 && r.to >= 0
  {
    if r.from == r.to then Digits(r.from) else Digits(r.from) + "-" + Digits(r.to)
  }

  ghost function Texts(ranges: seq<Range>): (texts: seq<string>)
    requires AllValid(ranges)
    ensures |texts| == |ranges| && forall i :: 0 <= i < |ranges| ==> texts[i] == Text(ranges[i])
  {
    if ranges == [] then [] else [Text(ranges[0])] + Texts(ranges[1..])
  }

  lemma {:induction false} SplitAfter(a: string, t: string, sep: char)
    requires Free(a, sep)
    ensures Split(a + t, sep) == [a + Split(t, sep)[0]] + Split(t, sep)[1..]
  {
    if a == "" {
      assert a + t == t && a + Split(t, sep)[0] == Split(t, sep)[0];
    } else {
      assert (a + t)[1..] == a[1..] + t;
      assert forall i :: 0 <= i < |a[1..]| ==> a[1..][i] == a[i + 1];
      SplitAfter(a[1..], t, sep);
      var x := Split(t, sep);
      assert Split(a[1..] + t, sep)[1..] == x[1..];
      assert [a[0]] + (a[1..] + x[0]) == a + x[0];
    }
  }

  lemma {:induction false} SplitJoin(items: seq<string>, sep: char)
    requires items != [] && forall i :: 0 <= i < |items| ==> Free(items[i], sep)
    ensures Split(Join(items, sep), sep) == items
  {
    if |items| == 1 {
      SplitAfter(items[0], "", sep);
      assert items[0] + "" == items[0];
    } else {
      var rest := Join(items[1..], sep);
      SplitJoin(items[1..], sep);
      SplitAfter(items[0], [sep] + rest, sep);
      assert ([sep] + rest)[1..] == rest && Split([sep] + rest, sep) == [""] + items[1..];
      assert ([""] + items[1..])[1..] == items[1..] && items[0] + "" == items[0];
      assert items[0] + ([sep] + rest) == Join(items, sep);
    }
  }

  lemma {:induction false} DigitsRead(n: int)
    requires 1 <= n <= 65535
    ensures ReadPort(Digits(n)) == Port(n) && Trim(Digits(n)) == Digits(n)
  {
    NumberOfDigits(n);
  }

  lemma {:induction false} NothingToTrim(s: string)
    requires s != "" && IsDigit(s[0]) && IsDigit(s[|s| - 1])
    ensures Trim(s) == s
  {
  }

  // What is in front of and behind the dash.
  lemma {:induction false} TextSplits(r: Range)
    requires r.Valid()
    ensures Split(Text(r), '-') == if r.from == r.to then [Digits(r.from)] else [Digits(r.from), Digits(r.to)]
  {
    if r.from == r.to {
      SplitJoin([Digits(r.from)], '-');
    } else {
      SplitJoin([Digits(r.from), Digits(r.to)], '-');
      assert Join([Digits(r.from), Digits(r.to)], '-') == Text(r);
    }
  }

  lemma {:induction false} TextReads(r: Range)
    requires r.Valid()
    ensures ReadItem(Text(r)) == Ports(r) && Free(Text(r), ',')
  {
    hide Digits, Split, Trim, ReadPort;
    DigitsRead(r.from);
    DigitsRead(r.to);
    NothingToTrim(Text(r));
    TextSplits(r);
  }

  // A printed list is readable and lists exactly the ports of its ranges.
  lemma {:induction false} PrintedIsReadable(ranges: seq<Range>)
    requires ranges != [] && AllValid(ranges)
    ensures var raw := Join(Texts(ranges), ',');
            Readable(raw) && forall port :: Listed(raw, port) <==> Covers(ranges, port)
  {
    var raw, texts := Join(Texts(ranges), ','), Texts(ranges);
    forall i | 0 <= i < |ranges| ensures ReadItem(texts[i]) == Ports(ranges[i]) && Free(texts[i], ',') {
      TextReads(ranges[i]);
    }
    SplitJoin(texts, ',');
    forall port ensures Listed(raw, port) <==> Covers(ranges, port) {
      ListedIsCovered(raw, ranges, port);
    }
  }

  method Print(ranges: seq<Range>) returns (texts: seq<string>)
    requires AllValid(ranges)
    ensures texts == Texts(ranges)
  {
    texts := [];
    for i := 0 to |ranges|
      invariant |texts| == i && forall k :: 0 <= k < i ==> texts[k] == Text(ranges[k])
    {
      texts := texts + [Text(ranges[i])];
    }
  }

  // Reading what was printed gives back a list in normal form, to the last range.
  method PrintAndParse(ranges: seq<Range>) returns (ok: bool, again: seq<Range>)
    requires ranges != [] && Canonical(ranges)
    ensures ok && again == ranges
  {
    PrintedIsReadable(ranges);
    var texts := Print(ranges);
    ok, again := Parse(Join(texts, ','));
    CanonicalUnique(again, ranges);
  }
}
