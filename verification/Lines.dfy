/** Splitting a text at a one-character separator and joining it again, as `str.split` and
    `str.join` do. Lines of a file use '\n'; path segments use '/'. */
module Lines {
  import opened Sequences

  function Split(s: string, sep: char): (parts: seq<string>)
    ensures |parts| >= 1
  {
    if s == "" then [""]
    else
      var rest := Split(s[1..], sep);
      if s[0] == sep then [""] + rest else [[s[0]] + rest[0]] + rest[1..]
  }

  function Join(parts: seq<string>, sep: char): string
    decreases |parts|, 0
  {
    if parts == [] then "" else parts[0] + Tail(parts[1..], sep)
  }

  /** What follows a part: each later part, with the separator in front of it. */
  function Tail(parts: seq<string>, sep: char): string
    decreases |parts|, 1
  {
    if parts == [] then "" else [sep] + Join(parts, sep)
  }

  /** What precedes a part: each earlier part, with the separator after it. */
  function Lead(parts: seq<string>, sep: char): string
  {
    if parts == [] then "" else parts[0] + [sep] + Lead(parts[1..], sep)
  }

  lemma {:induction false} JoinSplit(s: string, sep: char)
    ensures Join(Split(s, sep), sep) == s
  {
    if s != "" {
      JoinSplit(s[1..], sep);
      var rest := Split(s[1..], sep);
      if s[0] == sep {
        assert ([""] + rest)[1..] == rest;
      } else {
        assert ([[s[0]] + rest[0]] + rest[1..])[1..] == rest[1..];
      }
    }
  }

  lemma {:induction false} SplitPartsHaveNoSeparator(s: string, sep: char)
    ensures forall k :: 0 <= k < |Split(s, sep)| ==> sep !in Split(s, sep)[k]
  {
    if s != "" {
      SplitPartsHaveNoSeparator(s[1..], sep);
    }
  }

  lemma {:induction false} SplitOnePart(s: string, sep: char)
    requires sep !in s
    ensures Split(s, sep) == [s]
  {
    if s != "" {
      SplitOnePart(s[1..], sep);
      assert [s[0]] + s[1..] == s;
    }
  }

  lemma {:induction false} SplitAfterPart(s: string, rest: string, sep: char)
    requires sep !in s
    ensures Split(s + [sep] + rest, sep) == [s] + Split(rest, sep)
  {
    if s == "" {
      assert (s + [sep] + rest)[1..] == rest;
    } else {
      SplitAfterPart(s[1..], rest, sep);
      assert (s + [sep] + rest)[1..] == s[1..] + [sep] + rest;
      assert [s[0]] + s[1..] == s;
    }
  }

  lemma {:induction false} SplitJoin(parts: seq<string>, sep: char)
    requires parts != []
    requires forall k :: 0 <= k < |parts| ==> sep !in parts[k]
    ensures Split(Join(parts, sep), sep) == parts
  {
    var rest := parts[1..];
    assert parts == [parts[0]] + rest;
    if rest == [] {
      SplitOnePart(parts[0], sep);
      assert Join(parts, sep) == parts[0] + "" == parts[0];
    } else {
      SplitJoin(rest, sep);
      SplitAfterPart(parts[0], Join(rest, sep), sep);
      assert Join(parts, sep) == parts[0] + ([sep] + Join(rest, sep)) == parts[0] + [sep] + Join(rest, sep);
    }
  }

  /** A joined text is what leads up to part k, part k, and what follows it. */
  lemma {:induction false} JoinAt(parts: seq<string>, k: nat, sep: char)
    requires k < |parts|
    ensures Join(parts, sep) == Lead(parts[..k], sep) + parts[k] + Tail(parts[k + 1..], sep)
  {
    if k > 0 {
      JoinAt(parts[1..], k - 1, sep);
      assert parts[..k][1..] == parts[1..][..k - 1];
      assert parts[1..][k..] == parts[k + 1..];
    }
  }

  lemma {:induction false} JoinAppend(a: seq<string>, b: seq<string>, sep: char)
    requires a != []
    ensures Join(a + b, sep) == Join(a, sep) + Tail(b, sep)
  {
    if |a| == 1 {
      assert (a + b)[1..] == b;
    } else {
      JoinAppend(a[1..], b, sep);
      assert (a + b)[1..] == a[1..] + b;
    }
  }

  lemma {:induction false} LeadAppend(a: seq<string>, b: seq<string>, sep: char)
    ensures Lead(a + b, sep) == Lead(a, sep) + Lead(b, sep)
  {
    if a == [] {
      assert a + b == b;
    } else {
      LeadAppend(a[1..], b, sep);
      assert (a + b)[0] == a[0] && (a + b)[1..] == a[1..] + b;
      Assoc(a[0] + [sep], Lead(a[1..], sep), Lead(b, sep));
    }
  }

  lemma {:induction false} JoinLead(a: seq<string>, b: seq<string>, sep: char)
    requires b != []
    ensures Join(a + b, sep) == Lead(a, sep) + Join(b, sep)
  {
    if a == [] {
      assert a + b == b;
    } else {
      JoinLead(a[1..], b, sep);
      assert (a + b)[0] == a[0] && (a + b)[1..] == a[1..] + b;
      var lead, joined := Lead(a[1..], sep), Join(b, sep);
      assert Join(a + b, sep) == a[0] + ([sep] + (lead + joined));
      assert a[0] + ([sep] + (lead + joined)) == (a[0] + [sep] + lead) + joined;
    }
  }
}
