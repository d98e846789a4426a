/**
 How the skill seed generator quotes SQL text, and how PostgreSQL reads it back:
 dollar quotes by section 4.1.2.4 of its documentation, string constants by
 section 4.1.2.1.
 */
module SkillQuoting {
  import opened Wrappers

  function Digit(d: nat): char
    requires d < 10
  {
    "0123456789"[d]
  }

  function Decimal(n: nat): (s: string)
    ensures s != "" && forall c | c in s :: '0' <= c <= '9'
  {
    if n < 10 then [Digit(n)] else Decimal(n / 10) + [Digit(n % 10)]
  }

  lemma {:induction false} DecimalIsInjective(m: nat, n: nat)
    requires Decimal(m) == Decimal(n)
    ensures m == n
  {
    DecimalEnds(m);
    DecimalEnds(n);
    if m >= 10 && n >= 10 {
      DecimalIsInjective(m / 10, n / 10);
    }
  }

  /** The last digit is the number modulo ten; the others write the rest, and are missing below ten. */
  lemma DecimalEnds(n: nat)
    ensures var s := Decimal(n); s[|s| - 1] == Digit(n % 10) && (|s| == 1 <==> n < 10)
    ensures n >= 10 ==> Decimal(n)[..|Decimal(n)| - 1] == Decimal(n / 10)
  {
  }

  /** The k-th tag tried: $gb$, then $gb0$, $gb1$ and so on. */
  function Tag(k: nat): string {
    "$" + Label(k) + "$"
  }

  function Label(k: nat): (s: string)
    ensures '$' !in s && |s| >= 2
  {
    if k == 0 then "gb" else "gb" + Decimal(k - 1)
  }

  lemma TagsAreDistinct(j: nat, k: nat)
    requires Label(j) == Label(k)
    ensures j == k
  {
    if j > 0 && k > 0 {
      assert Label(j)[2..] == Decimal(j - 1) && Label(k)[2..] == Decimal(k - 1);
      DecimalIsInjective(j - 1, k - 1);
    }
  }

  predicate OccursAt(s: string, t: string, i: nat) {
    i + |t| <= |s| && s[i..i + |t|] == t
  }

  predicate Includes(s: string, t: string) {
    exists i | 0 <= i <= |s| :: OccursAt(s, t, i)
  }

  /** A tag has dollar signs at both ends and nowhere between. */
  lemma TagShape(k: nat)
    ensures var tag := Tag(k);
            |tag| >= 4 && forall p | 0 <= p < |tag| :: tag[p] == '$' <==> p == 0 || p == |tag| - 1
  {
    var tag := Tag(k);
    forall p | 0 < p < |tag| - 1
      ensures tag[p] != '$'
    {
      assert tag[p] == Label(k)[p - 1];
    }
  }

  lemma OccursPointwise(s: string, t: string, i: nat)
    ensures OccursAt(s, t, i) <==> i + |t| <= |s| && forall p | 0 <= p < |t| :: s[i + p] == t[p]
  {
    if i + |t| <= |s| {
      var w := s[i..i + |t|];
      assert forall p | 0 <= p < |t| :: w[p] == s[i + p];
    }
  }

  /** No tag is a prefix of another, so two different tags never start at one place. */
  lemma TagsFormAPrefixCode(s: string, i: nat, j: nat, k: nat)
    requires OccursAt(s, Tag(j), i) && OccursAt(s, Tag(k), i)
    ensures j == k
  {
    TagsEndTogether(s, i, j, k);
    assert Tag(j) == Tag(k);
    assert Label(j) == Tag(j)[1..|Tag(j)| - 1] && Label(k) == Tag(k)[1..|Tag(k)| - 1];
    TagsAreDistinct(j, k);
  }

  lemma TagsEndTogether(s: string, i: nat, j: nat, k: nat)
    requires OccursAt(s, Tag(j), i) && OccursAt(s, Tag(k), i)
    ensures |Tag(j)| == |Tag(k)|
  {
    hide Tag, OccursAt;
    var a, b := Tag(j), Tag(k);
    TagShape(j);
    TagShape(k);
    OccursPointwise(s, a, i);
    OccursPointwise(s, b, i);
    var n := if |a| <= |b| then |a| else |b|;
    assert s[i + (n - 1)] == a[n - 1] == b[n - 1];
  }

  /** Tags 0 to k - 1 all occur in s. */
  ghost predicate AllOccur(s: string, k: nat) {
    forall j | 0 <= j < k :: Includes(s, Tag(j))
  }

  /** The pigeonhole: k tags in s start at k different places, so there are at most |s| of them. */
  lemma {:induction false} AtMostLengthManyOccur(s: string, k: nat)
    requires AllOccur(s, k)
    ensures k <= |s|
  {
    var starts := StartsOf(s, k);
    BoundedSetSize(starts, |s|);
  }

  /** Where the first k tags start. */
  lemma {:induction false} StartsOf(s: string, k: nat) returns (starts: set<nat>)
    requires AllOccur(s, k)
    ensures |starts| == k
    ensures forall i | i in starts :: i < |s| && exists j | 0 <= j < k :: OccursAt(s, Tag(j), i)
  {
    if k == 0 {
      starts := {};
    } else {
      var before := StartsOf(s, k - 1);
      assert Includes(s, Tag(k - 1));
      var i :| 0 <= i <= |s| && OccursAt(s, Tag(k - 1), i);
      if i in before {
        var j :| 0 <= j < k - 1 && OccursAt(s, Tag(j), i);
        TagsFormAPrefixCode(s, i, j, k - 1);
      }
      starts := before + {i};
    }
  }

  lemma {:induction false} BoundedSetSize(a: set<nat>, n: nat)
    requires forall x | x in a :: x < n
    ensures |a| <= n
  {
    if n == 0 {
      assert a == {};
    } else {
      BoundedSetSize(a - {n - 1}, n - 1);
    }
  }

  /** The least tag from k on that does not occur in s. */
  ghost function FreeTag(s: string, k: nat): (tag: nat)
    requires AllOccur(s, k)
    ensures k <= tag <= |s| && AllOccur(s, tag) && !Includes(s, Tag(tag))
    decreases |s| + 1 - k
  {
    AtMostLengthManyOccur(s, k);
    if Includes(s, Tag(k)) then
      AtMostLengthManyOccur(s, k + 1);
      FreeTag(s, k + 1)
    else k
  }

  /** The k-th tag is written out as the loop below writes it. */
  lemma TagsAsWritten(k: nat)
    ensures Tag(0) == "$gb$" && Tag(k + 1) == "$gb" + Decimal(k) + "$"
  {
  }

  /** Wraps a string in the first tag that does not appear inside it. The loop ends on every string. */
  method DollarQuote(s: string) returns (quoted: string)
    ensures var tag := Tag(FreeTag(s, 0)); quoted == tag + s + tag
  {
    hide Tag, OccursAt, Includes, Decimal;
    var tag := "$gb$";
    var n: nat := 0;
    TagsAsWritten(0);
    while Includes(s, tag)
      invariant AllOccur(s, n) && FreeTag(s, n) == FreeTag(s, 0)
      invariant tag == Tag(n)
      decreases |s| + 1 - n
    {
      AtMostLengthManyOccur(s, n + 1);
      TagsAsWritten(n);
      tag := "$gb" + Decimal(n) + "$";
      n := n + 1;
    }
    quoted := tag + s + tag;
  }

  // ------------------------------------------------------------ reading it back

  function FirstOccurrence(s: string, t: string, from: nat): Option<nat>
    decreases |s| + 1 - from
  {
    if from > |s| then None
    else if OccursAt(s, t, from) then Some(from)
    else FirstOccurrence(s, t, from + 1)
  }

  lemma {:induction false} FirstOccurrenceIs(s: string, t: string, from: nat, i: nat)
    requires from <= i <= |s| && OccursAt(s, t, i)
    requires forall j | from <= j < i :: !OccursAt(s, t, j)
    ensures FirstOccurrence(s, t, from) == Some(i)
    decreases i - from
  {
    if from < i {
      FirstOccurrenceIs(s, t, from + 1, i);
    }
  }

  /** The content up to the first occurrence of the tag, and what follows that occurrence. */
  function UpToTag(text: string, tag: string): Option<(string, string)> {
    match FirstOccurrence(text, tag, 0)
    case None => None
    case Some(close) =>
      if close + |tag| > |text| then None else Some((text[..close], text[close + |tag|..]))
  }

  /**
   Reads a dollar-quoted constant at the start of the input: the tag runs to the second dollar sign, and the
   constant closes at the first later occurrence of the whole tag. Returns the content and what follows.
   */
  function LexDollar(input: string): Option<(string, string)> {
    if input == "" || input[0] != '$' then None
    else match FirstOccurrence(input, "$", 1)
      case None => None
      case Some(end) => if end >= |input| then None else UpToTag(input[end + 1..], input[..end + 1])
  }

  lemma LexOpensWithTheTag(k: nat, rest: string)
    ensures LexDollar(Tag(k) + rest) == UpToTag(rest, Tag(k))
  {
    hide Tag, OccursAt, FirstOccurrence, UpToTag;
    var tag := Tag(k);
    var input := tag + rest;
    var end := |tag| - 1;
    TagShape(k);
    forall j | 1 <= j <= end
      ensures OccursAt(input, "$", j) <==> j == end
    {
      assert input[j] == tag[j];
      DollarAt(input, j);
    }
    FirstOccurrenceIs(input, "$", 1, end);
    assert input[..end + 1] == tag && input[end + 1..] == rest;
  }

  lemma DollarAt(s: string, j: nat)
    requires j < |s|
    ensures OccursAt(s, "$", j) <==> s[j] == '$'
  {
    assert s[j..j + 1] == [s[j]];
  }

  /** The string ends in the tag without its last dollar sign. */
  predicate EndsWithOpenTag(s: string, tag: string)
    requires tag != ""
  {
    |s| >= |tag| - 1 && s[|s| - (|tag| - 1)..] == tag[..|tag| - 1]
  }

  /** A tag absent from s occurs in s + tag before the end of s only across the seam, and then as an open tag. */
  lemma OccurrenceAcrossTheSeam(s: string, k: nat, more: string, j: nat)
    requires !Includes(s, Tag(k)) && j < |s|
    ensures OccursAt(s + Tag(k) + more, Tag(k), j) <==>
              j == |s| - (|Tag(k)| - 1) && EndsWithOpenTag(s, Tag(k))
  {
    hide Tag;
    var tag := Tag(k);
    TagShape(k);
    OccursPointwise(s + tag + more, tag, j);
    if OccursAt(s + tag + more, tag, j) {
      OccurrenceEndsAtTheSeam(s, k, more, j);
    }
    if j == |s| - (|tag| - 1) && EndsWithOpenTag(s, tag) {
      OpenTagCloses(s, k, more);
    }
  }

  lemma OccurrenceEndsAtTheSeam(s: string, k: nat, more: string, j: nat)
    requires !Includes(s, Tag(k)) && j < |s|
    requires OccursAt(s + Tag(k) + more, Tag(k), j)
    ensures j == |s| - (|Tag(k)| - 1) && EndsWithOpenTag(s, Tag(k))
  {
    hide Tag;
    var tag := Tag(k);
    var whole := s + tag + more;
    TagShape(k);
    OccursPointwise(whole, tag, j);
    OccursPointwise(s, tag, j);
    assert !OccursAt(s, tag, j);
    if j + |tag| <= |s| {
      assert false;
    } else {
      // The dollar sign that opens the real tag falls on a place of this occurrence where a dollar sign stands.
      var p := |s| - j;
      assert whole[j + p] == tag[0] == '$';
      assert p == |tag| - 1;
      forall q | 0 <= q < |tag| - 1
        ensures s[j..][q] == tag[q]
      {
        assert whole[j + q] == s[j + q];
      }
      assert s[j..] == tag[..|tag| - 1];
    }
  }

  lemma OpenTagCloses(s: string, k: nat, more: string)
    requires EndsWithOpenTag(s, Tag(k))
    ensures OccursAt(s + Tag(k) + more, Tag(k), |s| - (|Tag(k)| - 1))
  {
    hide Tag;
    var tag := Tag(k);
    var whole := s + tag + more;
    var j := |s| - (|tag| - 1);
    TagShape(k);
    forall p | 0 <= p < |tag|
      ensures whole[j + p] == tag[p]
    {
      if p < |tag| - 1 {
        assert whole[j + p] == s[j + p] == s[j..][p];
      } else {
        assert whole[j + p] == whole[|s|] == tag[0];
      }
    }
    OccursPointwise(whole, tag, j);
  }

  /**
   Reading a dollar-quoted string back gives the string and the rest, whatever follows, exactly when the string
   does not end in its tag without the last dollar sign.
   */
  lemma DollarRoundTrip(s: string, k: nat, more: string)
    requires !Includes(s, Tag(k))
    ensures LexDollar(Tag(k) + s + Tag(k) + more) == Some((s, more)) <==> !EndsWithOpenTag(s, Tag(k))
  {
    hide Tag;
    var tag := Tag(k);
    var rest := s + tag + more;
    TagShape(k);
    assert tag + s + tag + more == tag + rest;
    LexOpensWithTheTag(k, rest);
    forall j | 0 <= j < |s|
      ensures OccursAt(rest, tag, j) <==> j == |s| - (|tag| - 1) && EndsWithOpenTag(s, tag)
    {
      OccurrenceAcrossTheSeam(s, k, more, j);
    }
    if EndsWithOpenTag(s, tag) {
      var j := |s| - (|tag| - 1);
      FirstOccurrenceIs(rest, tag, 0, j);
      assert |rest[..j]| < |s|;
    } else {
      assert rest[|s|..|s| + |tag|] == tag;
      FirstOccurrenceIs(rest, tag, 0, |s|);
      assert rest[..|s|] == s && rest[|s| + |tag|..] == more;
    }
  }

  /** The quoting of the generator, for its own choice of tag. */
  lemma DollarQuoteRoundTrip(s: string, more: string)
    ensures var tag := Tag(FreeTag(s, 0));
            LexDollar(tag + s + tag + more) == Some((s, more)) <==> !EndsWithOpenTag(s, tag)
  {
    DollarRoundTrip(s, FreeTag(s, 0), more);
  }

  /** A body ending in "$gb" is cut short: the quote closes inside the body. */
  lemma DollarQuoteCutsABody()
    ensures Tag(FreeTag("x$gb", 0)) == "$gb$"
    ensures LexDollar("$gb$" + "x$gb" + "$gb$") == Some(("x", "gb$"))
  {
    var s := "x$gb";
    TagsAsWritten(0);
    assert !OccursAt(s, "$gb$", 0) by {
      assert s[0..4][0] == 'x' && "$gb$"[0] == '$';
    }
    assert !Includes(s, Tag(0));
    var rest := s + "$gb$";
    LexOpensWithTheTag(0, rest);
    assert rest == "x$gb$gb$";
    assert rest[1..5] == "$gb$";
    assert !OccursAt(rest, "$gb$", 0) by {
      assert rest[0..4][0] == 'x' && "$gb$"[0] == '$';
    }
    FirstOccurrenceIs(rest, "$gb$", 0, 1);
    assert rest[..1] == "x" && rest[5..] == "gb$";
    assert "$gb$" + "x$gb" + "$gb$" == "$gb$" + rest;
  }

  // ------------------------------------------------------------ string constants

  function Doubled(s: string): string {
    if s == "" then "" else (if s[0] == '\'' then "''" else [s[0]]) + Doubled(s[1..])
  }

  function SqlStr(s: string): string {
    "'" + Doubled(s) + "'"
  }

  /** The characters up to the closing quote, and what follows it; two quotes in a row stand for one. */
  function LexQuoted(input: string): Option<(string, string)> {
    if input == "" then None
    else if input[0] != '\'' then
      match LexQuoted(input[1..])
      case None => None
      case Some((content, rest)) => Some(([input[0]] + content, rest))
    else if |input| >= 2 && input[1] == '\'' then
      match LexQuoted(input[2..])
      case None => None
      case Some((content, rest)) => Some(("'" + content, rest))
    else Some(("", input[1..]))
  }

  function LexString(input: string): Option<(string, string)> {
    if input == "" || input[0] != '\'' then None else LexQuoted(input[1..])
  }

  lemma {:induction false} QuotedRoundTrip(s: string, more: string)
    requires more == "" || more[0] != '\''
    ensures LexQuoted(Doubled(s) + "'" + more) == Some((s, more))
  {
    var input := Doubled(s) + "'" + more;
    if s == "" {
      assert input == "'" + more && input[1..] == more;
    } else {
      QuotedRoundTrip(s[1..], more);
      var tail := Doubled(s[1..]) + "'" + more;
      assert s == [s[0]] + s[1..];
      if s[0] == '\'' {
        assert input == "''" + tail && input[2..] == tail;
      } else {
        assert input == [s[0]] + tail && input[1..] == tail;
      }
    }
  }

  /** Every string survives a string constant, as long as no further quote follows it directly. */
  lemma SqlStrRoundTrip(s: string, more: string)
    ensures more == "" || more[0] != '\'' ==> LexString(SqlStr(s) + more) == Some((s, more))
    ensures LexString(SqlStr(s)) == Some((s, ""))
  {
    assert SqlStr(s)[1..] == Doubled(s) + "'" + "";
    QuotedRoundTrip(s, "");
    if more == "" || more[0] != '\'' {
      assert (SqlStr(s) + more)[1..] == Doubled(s) + "'" + more;
      QuotedRoundTrip(s, more);
    }
  }
}
