/** Rewriting one section of a changelog. */
module Changelog {

  /** Where Python's `splitlines` ends a line. Text read from a file has no carriage return left. */
  predicate Break(c: char) {
    c == '\n' || (0x0b <= c as int <= 0x0d) || (0x1c <= c as int <= 0x1e) || c as int == 0x85 || c as int == 0x2028
      || c as int == 0x2029
  }

  /** Python's whitespace. */
  predicate Space(c: char) {
    || c == ' ' || c == '\t' || Break(c) || c as int == 0x1f || c as int == 0xa0 || c as int == 0x1680
    || (0x2000 <= c as int <= 0x200a) || c as int == 0x202f || c as int == 0x205f || c as int == 0x3000
  }

  predicate NoBreak(s: string) { forall i :: 0 <= i < |s| ==> !Break(s[i]) }

  predicate Complete(line: string) { line != "" && Break(line[|line| - 1]) && NoBreak(line[..|line| - 1]) }

  /** A line with its end, or one that the text ends with. */
  predicate GoodLine(lines: seq<string>, i: nat)
    requires i < |lines|
  {
    Complete(lines[i]) || (i == |lines| - 1 && lines[i] != "" && NoBreak(lines[i]))
  }

  /** Lines with their ends kept: only the last may lack one. */
  ghost predicate WellSplit(lines: seq<string>) {
    forall i :: 0 <= i < |lines| ==> GoodLine(lines, i)
  }

  function LineLength(text: string): (n: nat)
    requires text != ""
    ensures 0 < n <= |text|
  {
    if Break(text[0]) || |text| == 1 then 1 else LineLength(text[1..]) + 1
  }

  /** `text.splitlines(keepends=True)` */
  function Lines(text: string): seq<string> {
    if text == "" then [] else [text[..LineLength(text)]] + Lines(text[LineLength(text)..])
  }

  function Concat(lines: seq<string>): string {
    if lines == [] then "" else lines[0] + Concat(lines[1..])
  }

  lemma {:induction false} ConcatAppend(a: seq<string>, b: seq<string>)
    ensures Concat(a + b) == Concat(a) + Concat(b)
  {
    if a == [] {
      assert a + b == b;
    } else {
      ConcatAppend(a[1..], b);
      assert (a + b)[1..] == a[1..] + b;
    }
  }

  lemma {:induction false} FirstLine(text: string)
    requires text != ""
    ensures var n := LineLength(text); Complete(text[..n]) || (n == |text| && NoBreak(text))
  {
    var n := LineLength(text);
    if !Break(text[0]) && |text| > 1 {
      FirstLine(text[1..]);
      assert forall i :: 0 < i < |text| ==> text[i] == text[1..][i - 1];
      assert text[..n] == [text[0]] + text[1..][..n - 1];
    }
  }

  lemma {:induction false} LinesWellSplit(text: string)
    ensures WellSplit(Lines(text)) && Concat(Lines(text)) == text
  {
    if text != "" {
      var n := LineLength(text);
      var first, rest := text[..n], Lines(text[n..]);
      FirstLine(text);
      LinesWellSplit(text[n..]);
      assert text == first + text[n..];
      assert n == |text| ==> first == text;
      WellSplitCons(first, rest);
    }
  }

  lemma WellSplitCons(first: string, rest: seq<string>)
    requires WellSplit(rest) && (Complete(first) || (rest == [] && first != "" && NoBreak(first)))
    ensures WellSplit([first] + rest) && Concat([first] + rest) == first + Concat(rest)
  {
    var all := [first] + rest;
    assert all[1..] == rest;
    forall i | 0 <= i < |all| ensures GoodLine(all, i) {
      assert i > 0 ==> GoodLine(rest, i - 1);
    }
  }

  /** Joining well-split lines and splitting again gives the same lines. */
  lemma {:induction false} SplitConcat(lines: seq<string>)
    requires WellSplit(lines)
    ensures Lines(Concat(lines)) == lines
  {
    if lines != [] {
      var first, rest := lines[0], lines[1..];
      forall i | 0 <= i < |rest| ensures GoodLine(rest, i) {
        assert GoodLine(lines, i + 1);
      }
      SplitConcat(rest);
      assert GoodLine(lines, 0);
      FirstLineIs(first, Concat(rest));
      var text := first + Concat(rest);
      assert text[..|first|] == first && text[|first|..] == Concat(rest);
      assert lines == [first] + rest;
    }
  }

  lemma {:induction false} FirstLineIs(first: string, more: string)
    requires Complete(first) || (first != "" && NoBreak(first) && more == "")
    ensures LineLength(first + more) == |first|
  {
    var text := first + more;
    assert text[0] == first[0];
    if |first| > 1 {
      assert first[0] == first[..|first| - 1][0];
      assert text[1..] == first[1..] + more;
      TailLine(first);
      FirstLineIs(first[1..], more);
    }
  }

  lemma TailLine(first: string)
    requires |first| > 1
    ensures Complete(first) ==> Complete(first[1..])
    ensures NoBreak(first) ==> NoBreak(first[1..])
  {
  }

  function RStrip(s: string): string {
    if s != "" && Space(s[|s| - 1]) then RStrip(s[..|s| - 1]) else s
  }

  /** `old.lstrip("\n")` */
  function LStripNewlines(s: string): string {
    if s != "" && s[0] == '\n' then LStripNewlines(s[1..]) else s
  }

  /** A section starts at a line matching `^##\s`. */
  predicate IsHeading(line: string) { |line| >= 3 && line[..2] == "##" && Space(line[2]) }

  /** The first line from `i` on that satisfies `p`, or the end. */
  function First(p: string -> bool, lines: seq<string>, i: nat): (r: nat)
    requires i <= |lines|
    ensures i <= r <= |lines|
    ensures forall k :: i <= k < r ==> !p(lines[k])
    ensures r < |lines| ==> p(lines[r])
    decreases |lines| - i
  {
    if i == |lines| || p(lines[i]) then i else First(p, lines, i + 1)
  }

  function Start(lines: seq<string>, heading: string): nat { First(line => RStrip(line) == heading, lines, 0) }

  function End(lines: seq<string>, from: nat): nat
    requires from <= |lines|
  {
    First(IsHeading, lines, from)
  }

  /** The changelog with this heading's section replaced, or put first. */
  function Apply(old_: string, heading: string, entry: string): string {
    var lines := Lines(old_);
    var start := Start(lines, heading);
    if start == |lines| then entry + LStripNewlines(old_)
    else Concat(lines[..start]) + entry + Concat(lines[End(lines, start + 1)..])
  }

  /** A heading of its own line, such as `## 1.2.3`. */
  predicate Titled(heading: string) {
    |heading| > 3 && heading[..3] == "## " && NoBreak(heading) && !Space(heading[|heading| - 1])
  }

  /** The lines of an entry: the heading, a blank line, the bullets, a blank line. */
  predicate EntryLines(heading: string, lines: seq<string>) {
    && |lines| > 0 && lines[0] == heading + "\n"
    && (forall i :: 0 <= i < |lines| ==> Complete(lines[i]))
    && (forall i :: 1 <= i < |lines| ==> !IsHeading(lines[i]))
  }

  lemma HeadingLine(heading: string)
    requires Titled(heading)
    ensures RStrip(heading + "\n") == heading && IsHeading(heading + "\n") && Complete(heading + "\n")
  {
  }

  lemma FirstIs(p: string -> bool, lines: seq<string>, i: nat, r: nat)
    requires i <= r <= |lines| && (r < |lines| ==> p(lines[r]))
    requires forall k :: i <= k < r ==> !p(lines[k])
    ensures First(p, lines, i) == r
  {
  }

  /** The rewrite on lines: what precedes the section and what follows it stays. */
  function ApplyLines(lines: seq<string>, start: nat, entry: seq<string>): seq<string>
    requires start < |lines|
  {
    lines[..start] + entry + lines[End(lines, start + 1)..]
  }

  lemma PiecesWellSplit(before: seq<string>, entry: seq<string>, rest: seq<string>)
    requires forall i :: 0 <= i < |before| ==> Complete(before[i])
    requires forall i :: 0 <= i < |entry| ==> Complete(entry[i])
    requires WellSplit(rest)
    ensures WellSplit(before + entry + rest)
    ensures Concat(before + entry + rest) == Concat(before) + Concat(entry) + Concat(rest)
  {
    ConcatAppend(before + entry, rest);
    ConcatAppend(before, entry);
    var all := before + entry + rest;
    var n := |before| + |entry|;
    forall i | 0 <= i < |all| ensures GoodLine(all, i) {
      assert i >= n ==> all[i] == rest[i - n] && GoodLine(rest, i - n);
    }
  }

  lemma SuffixWellSplit(lines: seq<string>, n: nat)
    requires WellSplit(lines) && n <= |lines|
    ensures WellSplit(lines[n..])
    ensures forall i :: 0 <= i < n && n < |lines| ==> Complete(lines[i])
  {
    forall i | 0 <= i < |lines[n..]| ensures GoodLine(lines[n..], i) {
      assert GoodLine(lines, n + i);
    }
    forall i | 0 <= i < n && n < |lines| ensures Complete(lines[i]) {
      assert GoodLine(lines, i);
    }
  }

  /** Rewriting a section that is there rewrites its lines. */
  lemma Applied(old_: string, heading: string, entry: seq<string>)
    requires EntryLines(heading, entry) && Start(Lines(old_), heading) < |Lines(old_)|
    ensures var lines := ApplyLines(Lines(old_), Start(Lines(old_), heading), entry);
      Apply(old_, heading, Concat(entry)) == Concat(lines) && Lines(Apply(old_, heading, Concat(entry))) == lines
  {
    var lines := Lines(old_);
    var start := Start(lines, heading);
    var end := End(lines, start + 1);
    LinesWellSplit(old_);
    SuffixWellSplit(lines, start);
    SuffixWellSplit(lines, end);
    PiecesWellSplit(lines[..start], entry, lines[end..]);
    SplitConcat(lines[..start] + entry + lines[end..]);
  }

  /** Putting the entry first puts its lines first. */
  lemma PutFirst(entry: seq<string>, text: string)
    requires forall i :: 0 <= i < |entry| ==> Complete(entry[i])
    ensures Lines(Concat(entry) + text) == entry + Lines(text)
  {
    LinesWellSplit(text);
    var rest := Lines(text);
    ConcatAppend(entry, rest);
    var all := entry + rest;
    forall i | 0 <= i < |all| ensures GoodLine(all, i) {
      assert i >= |entry| ==> all[i] == rest[i - |entry|] && GoodLine(rest, i - |entry|);
    }
    SplitConcat(all);
  }

  /** Lines with the entry in place: the entry is found again, and its section is the entry alone. */
  lemma EntryFound(before: seq<string>, entry: seq<string>, rest: seq<string>, heading: string)
    requires Titled(heading) && EntryLines(heading, entry)
    requires forall k :: 0 <= k < |before| ==> RStrip(before[k]) != heading
    ensures Start(before + entry + rest, heading) == |before|
    ensures |before| + 1 <= |before + entry + rest|
    ensures End(before + entry + rest, |before| + 1) == |before| + |entry| + End(rest, 0)
  {
    HeadingLine(heading);
    var all := before + entry + rest;
    assert all[|before|] == entry[0];
    FirstIs(line => RStrip(line) == heading, all, 0, |before|);
    var e, n := End(rest, 0), |before| + |entry|;
    forall k | |before| + 1 <= k < n + e ensures !IsHeading(all[k]) {
      if k < n {
        assert all[k] == entry[k - |before|];
      } else {
        assert all[k] == rest[k - n];
      }
    }
    assert e < |rest| ==> all[n + e] == rest[e];
    FirstIs(IsHeading, all, |before| + 1, n + e);
  }

  /** Rewriting once more keeps the entry and drops what stands between it and the next section. */
  lemma AppliedAgain(before: seq<string>, entry: seq<string>, rest: seq<string>, heading: string)
    requires Titled(heading) && EntryLines(heading, entry)
    requires forall k :: 0 <= k < |before| ==> RStrip(before[k]) != heading
    ensures |before| < |before + entry + rest|
    ensures ApplyLines(before + entry + rest, |before|, entry) == before + entry + rest[End(rest, 0)..]
  {
    EntryFound(before, entry, rest, heading);
    var all, e := before + entry + rest, End(rest, 0);
    assert all[..|before|] == before;
    assert all[|before| + |entry| + e..] == rest[e..];
  }

  /** `old` up to the section, the section, and what follows it: nothing inside starts another section. */
  ghost predicate SectionAt(lines: seq<string>, heading: string, start: nat, end: nat) {
    && start < end <= |lines| && RStrip(lines[start]) == heading
    && (forall k :: 0 <= k < start ==> RStrip(lines[k]) != heading)
    && (forall k :: start < k < end ==> !IsHeading(lines[k]))
    && (end < |lines| ==> IsHeading(lines[end]))
  }

  /** Only this heading's own section changes; without one, only blank lines at the top go. */
  lemma OtherSectionsKept(old_: string, heading: string, entry: string)
    ensures var lines := Lines(old_);
      var start := Start(lines, heading);
      if start < |lines| then
        var end := End(lines, start + 1);
        && SectionAt(lines, heading, start, end)
        && old_ == Concat(lines[..start]) + Concat(lines[start..end]) + Concat(lines[end..])
        && Apply(old_, heading, entry) == Concat(lines[..start]) + entry + Concat(lines[end..])
      else
        exists n :: 0 <= n <= |old_| && OnlyNewlines(old_[..n]) && Apply(old_, heading, entry) == entry + old_[n..]
  {
    var lines := Lines(old_);
    var start := Start(lines, heading);
    LinesWellSplit(old_);
    if start < |lines| {
      var end := End(lines, start + 1);
      ThreeParts(lines, start, end);
    } else {
      var n := Stripped(old_);
    }
  }

  lemma ThreeParts(lines: seq<string>, start: nat, end: nat)
    requires start <= end <= |lines|
    ensures Concat(lines) == Concat(lines[..start]) + Concat(lines[start..end]) + Concat(lines[end..])
  {
    assert lines == lines[..end] + lines[end..];
    ConcatAppend(lines[..end], lines[end..]);
    assert lines[..end] == lines[..start] + lines[start..end];
    ConcatAppend(lines[..start], lines[start..end]);
  }

  predicate OnlyNewlines(s: string) { forall i :: 0 <= i < |s| ==> s[i] == '\n' }

  lemma {:induction false} Stripped(s: string) returns (n: nat)
    ensures n <= |s| && OnlyNewlines(s[..n]) && LStripNewlines(s) == s[n..]
  {
    if s != "" && s[0] == '\n' {
      var m := Stripped(s[1..]);
      n := m + 1;
      assert s[..n] == [s[0]] + s[1..][..m];
    } else {
      n := 0;
    }
  }

  /** When rewriting again changes nothing: the caller can check this before the first rewrite. */
  predicate Stable(old_: string, heading: string) {
    var rest := Lines(LStripNewlines(old_));
    Start(Lines(old_), heading) < |Lines(old_)| || rest == [] || IsHeading(rest[0])
  }

  /** Rewriting is a fixpoint exactly when nothing stands between the top of the file and its first section. */
  lemma RewriteIsFixpoint(old_: string, heading: string, entry: seq<string>)
    requires Titled(heading) && EntryLines(heading, entry)
    ensures var once := Apply(old_, heading, Concat(entry));
      Apply(once, heading, Concat(entry)) == once <==> Stable(old_, heading)
  {
    if Start(Lines(old_), heading) < |Lines(old_)| {
      RewriteAgain(old_, heading, entry);
    } else {
      PutFirstAgain(old_, heading, entry);
    }
  }

  lemma RewriteAgain(old_: string, heading: string, entry: seq<string>)
    requires Titled(heading) && EntryLines(heading, entry)
    requires Start(Lines(old_), heading) < |Lines(old_)|
    ensures var once := Apply(old_, heading, Concat(entry)); Apply(once, heading, Concat(entry)) == once
  {
    var lines := Lines(old_);
    var start := Start(lines, heading);
    var before, rest := lines[..start], lines[End(lines, start + 1)..];
    Applied(old_, heading, entry);
    var once := Apply(old_, heading, Concat(entry));
    EntryFound(before, entry, rest, heading);
    AppliedAgain(before, entry, rest, heading);
    SectionFollows(lines, start + 1);
    assert rest[End(rest, 0)..] == rest;
    Applied(once, heading, entry);
  }

  lemma SectionFollows(lines: seq<string>, from: nat)
    requires from <= |lines|
    ensures End(lines[End(lines, from)..], 0) == 0
  {
  }

  lemma PutFirstAgain(old_: string, heading: string, entry: seq<string>)
    requires Titled(heading) && EntryLines(heading, entry)
    requires Start(Lines(old_), heading) == |Lines(old_)|
    ensures var once := Apply(old_, heading, Concat(entry));
      Apply(once, heading, Concat(entry)) == once <==> Stable(old_, heading)
  {
    var text := LStripNewlines(old_);
    PutFirst(entry, text);
    FirstAgain(heading, entry, text, Lines(text));
    LinesWellSplit(text);
  }

  lemma FirstAgain(heading: string, entry: seq<string>, text: string, rest: seq<string>)
    requires Titled(heading) && EntryLines(heading, entry)
    requires rest == Lines(text) && Lines(Concat(entry) + text) == entry + rest
    ensures var once := Concat(entry) + text;
      Apply(once, heading, Concat(entry)) == once <==> rest == [] || IsHeading(rest[0])
  {
    var once := Concat(entry) + text;
    var none: seq<string> := [];
    var e := End(rest, 0);
    assert none + entry + rest == entry + rest && none + entry + rest[e..] == entry + rest[e..];
    EntryFound(none, entry, rest, heading);
    AppliedAgain(none, entry, rest, heading);
    Applied(once, heading, entry);
    assert Lines(Apply(once, heading, Concat(entry))) == entry + rest[e..];
    assert e > 0 ==> |entry + rest[e..]| != |entry + rest|;
    if e == 0 {
      assert rest[e..] == rest;
      LinesWellSplit(once);
    }
    assert e == 0 <==> rest == [] || IsHeading(rest[0]);
  }

  /** Text above the first section is lost when the new section is rewritten. */
  lemma PreambleIsLost(heading: string, entry: seq<string>)
    requires Titled(heading) && EntryLines(heading, entry)
    ensures var once := Apply("Changes\n", heading, Concat(entry));
      once == Concat(entry) + "Changes\n" && Apply(once, heading, Concat(entry)) == Concat(entry)
  {
    var old_ := "Changes\n";
    var one, none: seq<string> := [old_], [];
    assert one[1..] == none;
    assert Concat(one) == old_;
    SplitConcat(one);
    RStripPrefix(old_);
    assert heading[..3][0] == '#';
    assert RStrip(old_) != heading;
    var once := Apply(old_, heading, Concat(entry));
    PutFirst(entry, old_);
    assert none + entry + one == entry + one;
    ConcatAppend(entry, one);
    EntryFound(none, entry, one, heading);
    AppliedAgain(none, entry, one, heading);
    assert old_[..2] == "Ch";
    assert End(one, 0) == 1;
    Applied(once, heading, entry);
    assert none + entry + none == entry && one[1..] == none;
  }

  lemma {:induction false} RStripPrefix(s: string)
    ensures RStrip(s) <= s
  {
    if s != "" && Space(s[|s| - 1]) {
      RStripPrefix(s[..|s| - 1]);
    }
  }
}
