/**
 * `split_list_by_arg`: cutting a token list into command groups at a
 * separator token.
 *
 * The scan appends the pending group on every separator, even when there
 * is none pending, so a leading separator or two separators in a row give
 * a `None` entry; a separator at the very end gives nothing extra, because
 * the pending group is only flushed when it is non-empty.
 */
module Splitter {
  import opened Wrappers

  type Token = string

  /** One entry of the result: a group of tokens, or `None` for a separator with nothing pending. */
  type Entry = Option<seq<Token>>

  /** The tokens of `lst` before its first `sep` (all of `lst` when there is none). */
  function Leading(lst: seq<Token>, sep: Token): (w: seq<Token>)
    ensures |w| <= |lst|
  {
    if lst == [] || lst[0] == sep then [] else [lst[0]] + Leading(lst[1..], sep)
  }

  /** The entry a separator contributes for the tokens gathered since the previous one. */
  function Cut(w: seq<Token>): Entry {
    if w == [] then None else Some(w)
  }

  /** The tokens an entry holds (none for `None`). */
  function Content(e: Entry): seq<Token> {
    match e
    case None => []
    case Some(g) => g
  }

  /**
   * Reference definition of the split: one entry per separator, holding the
   * tokens since the previous separator, then the tokens after the last
   * separator when there are any.
   */
  function Split(lst: seq<Token>, sep: Token): seq<Entry>
    decreases |lst|
  {
    var w := Leading(lst, sep);
    if |w| == |lst| then (if lst == [] then [] else [Some(lst)])
    else [Cut(w)] + Split(lst[|w| + 1..], sep)
  }

  /** `Leading` is a separator-free prefix that stops at a separator or at the end. */
  lemma {:induction false} LeadingIsRun(lst: seq<Token>, sep: Token)
    ensures var w := Leading(lst, sep);
      w == lst[..|w|] && sep !in w && (|w| < |lst| ==> lst[|w|] == sep)
  {
    if lst != [] && lst[0] != sep {
      LeadingIsRun(lst[1..], sep);
    }
  }

  /** Every `Some` entry is a non-empty group free of separators. */
  ghost predicate WellFormed(entries: seq<Entry>, sep: Token) {
    forall i :: 0 <= i < |entries| && entries[i].Some? ==>
      entries[i].value != [] && sep !in entries[i].value
  }

  /** The separator-free tokens `w` are all that comes before the first separator. */
  lemma {:induction false} LeadingOfGroup(w: seq<Token>, rest: seq<Token>, sep: Token)
    requires sep !in w
    requires rest == [] || rest[0] == sep
    ensures Leading(w + rest, sep) == w
  {
    if w == [] {
      assert w + rest == rest;
    } else {
      assert (w + rest)[1..] == w[1..] + rest;
      LeadingOfGroup(w[1..], rest, sep);
    }
  }

  /** A separator after a separator-free run cuts exactly that run off. */
  lemma {:induction false} SplitAfter(w: seq<Token>, rest: seq<Token>, sep: Token)
    requires sep !in w
    ensures Split(w + [sep] + rest, sep) == [Cut(w)] + Split(rest, sep)
  {
    LeadingOfGroup(w, [sep] + rest, sep);
    assert w + [sep] + rest == w + ([sep] + rest);
    assert (w + [sep] + rest)[|w| + 1..] == rest;
  }

  /** A separator-free list is a single group, or nothing when it is empty. */
  lemma {:induction false} SplitNoSep(w: seq<Token>, sep: Token)
    requires sep !in w
    ensures Split(w, sep) == if w == [] then [] else [Some(w)]
  {
    LeadingOfGroup(w, [], sep);
    assert w + [] == w;
  }

  /** A list holding a separator splits at its first one. */
  lemma {:induction false} SplitAtFirst(lst: seq<Token>, sep: Token) returns (w: seq<Token>, rest: seq<Token>)
    requires sep in lst
    ensures sep !in w && lst == w + [sep] + rest
    ensures Split(lst, sep) == [Cut(w)] + Split(rest, sep)
  {
    w := Leading(lst, sep);
    LeadingIsRun(lst, sep);
    rest := lst[|w| + 1..];
    assert lst == w + [sep] + rest;
    SplitAfter(w, rest, sep);
  }

  /** A separator at `lst[i]` flushes the pending buffer `cur` as one entry. */
  lemma {:induction false} ScanSeparator(cur: Entry, lst: seq<Token>, i: nat, sep: Token)
    requires i < |lst| && lst[i] == sep
    requires cur.Some? ==> cur.value != [] && sep !in cur.value
    ensures Split(Content(cur) + lst[i..], sep) == [cur] + Split(lst[i + 1..], sep)
  {
    assert Content(cur) + lst[i..] == Content(cur) + [sep] + lst[i + 1..];
    SplitAfter(Content(cur), lst[i + 1..], sep);
  }

  /** A token at `lst[i]` moves into the pending buffer. */
  lemma {:induction false} ScanToken(pending: seq<Token>, lst: seq<Token>, i: nat)
    requires i < |lst|
    ensures (pending + [lst[i]]) + lst[i + 1..] == pending + lst[i..]
  {
    assert lst[i..] == [lst[i]] + lst[i + 1..];
  }

  /** At the end of the scan the pending buffer is the last group, if there is one. */
  lemma {:induction false} ScanEnd(cur: Entry, lst: seq<Token>, sep: Token)
    requires cur.Some? ==> cur.value != [] && sep !in cur.value
    ensures Split(Content(cur) + lst[|lst|..], sep) == if cur.Some? then [cur] else []
  {
    assert Content(cur) + lst[|lst|..] == Content(cur);
    SplitNoSep(Content(cur), sep);
  }

  /** The left-to-right scan of `split_list_by_arg`, proved equal to `Split`. */
  method SplitListByArg(lst: seq<Token>, separator: Token) returns (result: seq<Entry>)
    ensures result == Split(lst, separator)
  {
    result := [];
    var cur: Entry := None;
    assert Content(cur) + lst[0..] == lst;
    for i := 0 to |lst|
      invariant cur.Some? ==> cur.value != [] && separator !in cur.value
      invariant result + Split(Content(cur) + lst[i..], separator) == Split(lst, separator)
    {
      var item := lst[i];
      if item == separator {
        ScanSeparator(cur, lst, i, separator);
        result := result + [cur];
        cur := None;
        assert Content(cur) + lst[i + 1..] == lst[i + 1..];
      } else {
        ScanToken(Content(cur), lst, i);
        if cur.None? || cur.value == [] {
          cur := Some([]);
        }
        cur := Some(cur.value + [item]);
      }
    }
    ScanEnd(cur, lst, separator);
    if cur.Some? && cur.value != [] {
      result := result + [cur];
    }
  }

  // ---------------------------------------------------------------------
  // Properties of the split
  // ---------------------------------------------------------------------

  /** Splitting the empty list gives the empty list. */
  lemma {:induction false} SplitOfEmpty(sep: Token)
    ensures Split([], sep) == []
  {
  }

  /** The edge cases of the scan on the chaining keyword. */
  lemma {:induction false} SplitExamples()
    ensures Split(["and"], "and") == [None]
    ensures Split(["and", "and", "a"], "and") == [None, None, Some(["a"])]
    ensures Split(["a", "b", "and", "c"], "and") == [Some(["a", "b"]), Some(["c"])]
    ensures Split(["a", "and"], "and") == [Some(["a"])]
  {
    SplitAfter([], [], "and");
    SplitAfter([], ["and", "a"], "and");
    SplitAfter([], ["a"], "and");
    SplitNoSep(["a"], "and");
    assert ["and", "and", "a"] == [] + ["and"] + ["and", "a"];
    assert ["and", "a"] == [] + ["and"] + ["a"];
    SplitAfter(["a", "b"], ["c"], "and");
    SplitNoSep(["c"], "and");
    assert ["a", "b", "and", "c"] == ["a", "b"] + ["and"] + ["c"];
    SplitAfter(["a"], [], "and");
    assert ["a", "and"] == ["a"] + ["and"] + [];
  }

  /** Every group the split produces is non-empty and holds no separator. */
  lemma {:induction false} SplitWellFormed(lst: seq<Token>, sep: Token)
    ensures WellFormed(Split(lst, sep), sep)
    decreases |lst|
  {
    var w := Leading(lst, sep);
    LeadingIsRun(lst, sep);
    if |w| < |lst| {
      SplitWellFormed(lst[|w| + 1..], sep);
    }
  }

  /** `lst` with every separator removed. */
  function Without(lst: seq<Token>, sep: Token): seq<Token> {
    if lst == [] then []
    else if lst[0] == sep then Without(lst[1..], sep)
    else [lst[0]] + Without(lst[1..], sep)
  }

  /** The tokens of all groups, in order. */
  function Kept(entries: seq<Entry>): seq<Token> {
    if entries == [] then [] else Content(entries[0]) + Kept(entries[1..])
  }

  /** The number of separators in `lst`. */
  function Occurrences(lst: seq<Token>, sep: Token): nat {
    if lst == [] then 0 else (if lst[0] == sep then 1 else 0) + Occurrences(lst[1..], sep)
  }

  lemma {:induction false} WithoutAppend(a: seq<Token>, b: seq<Token>, sep: Token)
    ensures Without(a + b, sep) == Without(a, sep) + Without(b, sep)
    ensures Occurrences(a + b, sep) == Occurrences(a, sep) + Occurrences(b, sep)
  {
    if a != [] {
      assert (a + b)[1..] == a[1..] + b;
      WithoutAppend(a[1..], b, sep);
    } else {
      assert a + b == b;
    }
  }

  lemma {:induction false} WithoutNoSep(w: seq<Token>, sep: Token)
    requires sep !in w
    ensures Without(w, sep) == w && Occurrences(w, sep) == 0
  {
    if w != [] {
      WithoutNoSep(w[1..], sep);
    }
  }

  /** Removing separators from a run, a separator and the rest. */
  lemma {:induction false} WithoutCut(w: seq<Token>, rest: seq<Token>, sep: Token)
    requires sep !in w
    ensures Without(w + [sep] + rest, sep) == w + Without(rest, sep)
    ensures Occurrences(w + [sep] + rest, sep) == 1 + Occurrences(rest, sep)
  {
    WithoutAppend(w + [sep], rest, sep);
    WithoutAppend(w, [sep], sep);
    WithoutNoSep(w, sep);
    assert [sep][1..] == [];
    assert Without([sep], sep) == [] && Occurrences([sep], sep) == 1;
    assert w + [] == w;
  }

  lemma {:induction false} KeptCons(e: Entry, entries: seq<Entry>)
    ensures Kept([e] + entries) == Content(e) + Kept(entries)
  {
    assert ([e] + entries)[1..] == entries;
  }

  /** Concatenating the groups in order gives the input with its separators removed. */
  lemma {:induction false} SplitKeepsTokens(lst: seq<Token>, sep: Token)
    ensures Kept(Split(lst, sep)) == Without(lst, sep)
    decreases |lst|
  {
    if sep !in lst {
      SplitNoSep(lst, sep);
      WithoutNoSep(lst, sep);
      if lst != [] {
        KeptCons(Some(lst), []);
      }
    } else {
      var w, rest := SplitAtFirst(lst, sep);
      calc {
        Kept(Split(lst, sep));
        Kept([Cut(w)] + Split(rest, sep));
        { KeptCons(Cut(w), Split(rest, sep)); assert Content(Cut(w)) == w; }
        w + Kept(Split(rest, sep));
        { SplitKeepsTokens(rest, sep); }
        w + Without(rest, sep);
        { WithoutCut(w, rest, sep); }
        Without(lst, sep);
      }
    }
  }

  /**
   * The number of entries is the number of separators, plus one when a
   * group is still pending at the end (the list is non-empty and does not
   * end in a separator).
   */
  lemma {:induction false} SplitLength(lst: seq<Token>, sep: Token)
    ensures |Split(lst, sep)| ==
      Occurrences(lst, sep) + (if lst != [] && lst[|lst| - 1] != sep then 1 else 0)
    decreases |lst|
  {
    if sep !in lst {
      SplitNoSep(lst, sep);
      WithoutNoSep(lst, sep);
      if lst != [] {
        assert lst[|lst| - 1] in lst;
      }
    } else {
      var w, rest := SplitAtFirst(lst, sep);
      SplitLength(rest, sep);
      WithoutCut(w, rest, sep);
      if rest != [] {
        assert lst[|lst| - 1] == rest[|rest| - 1];
      }
    }
  }

  /**
   * Splitting a list that is empty or ends in a separator, followed by
   * anything, splits the two parts independently.
   */
  lemma {:induction false} SplitAppend(pre: seq<Token>, rest: seq<Token>, sep: Token)
    requires pre == [] || pre[|pre| - 1] == sep
    ensures Split(pre + rest, sep) == Split(pre, sep) + Split(rest, sep)
    decreases |pre|
  {
    if pre == [] {
      assert pre + rest == rest;
    } else {
      assert sep in pre;
      var w, tail := SplitAtFirst(pre, sep);
      if tail != [] {
        assert tail[|tail| - 1] == pre[|pre| - 1];
      }
      calc {
        Split(pre + rest, sep);
        { assert pre + rest == w + [sep] + (tail + rest); }
        Split(w + [sep] + (tail + rest), sep);
        { SplitAfter(w, tail + rest, sep); }
        [Cut(w)] + Split(tail + rest, sep);
        { SplitAppend(tail, rest, sep); }
        [Cut(w)] + (Split(tail, sep) + Split(rest, sep));
        ([Cut(w)] + Split(tail, sep)) + Split(rest, sep);
        Split(pre, sep) + Split(rest, sep);
      }
    }
  }

  /**
   * A separator with no pending group (first in the list, or right after
   * another separator) is not dropped: it contributes a `None` entry.
   */
  lemma {:induction false} SeparatorWithoutGroup(pre: seq<Token>, post: seq<Token>, sep: Token)
    requires pre == [] || pre[|pre| - 1] == sep
    ensures Split(pre + [sep] + post, sep) == Split(pre, sep) + [None] + Split(post, sep)
  {
    calc {
      Split(pre + [sep] + post, sep);
      { assert pre + [sep] + post == pre + ([sep] + post); }
      Split(pre + ([sep] + post), sep);
      { SplitAppend(pre, [sep] + post, sep); }
      Split(pre, sep) + Split([sep] + post, sep);
      { SplitAfter([], post, sep); assert [] + [sep] + post == [sep] + post; }
      Split(pre, sep) + ([None] + Split(post, sep));
    }
  }

  /** Writes the entries back as tokens, each followed by one separator. */
  function Rejoin(entries: seq<Entry>, sep: Token): seq<Token> {
    if entries == [] then [] else Content(entries[0]) + [sep] + Rejoin(entries[1..], sep)
  }

  /** `lst` ending in a separator: unchanged if empty or already so, else with one appended. */
  function Terminated(lst: seq<Token>, sep: Token): seq<Token> {
    if lst == [] || lst[|lst| - 1] == sep then lst else lst + [sep]
  }

  lemma {:induction false} RejoinCons(e: Entry, entries: seq<Entry>, sep: Token)
    ensures Rejoin([e] + entries, sep) == Content(e) + [sep] + Rejoin(entries, sep)
  {
    assert ([e] + entries)[1..] == entries;
  }

  /**
   * Round trip one way: rejoining the split gives back the input, with one
   * separator added at the end when the input did not already end in one.
   */
  lemma {:induction false} RejoinSplit(lst: seq<Token>, sep: Token)
    ensures Rejoin(Split(lst, sep), sep) == Terminated(lst, sep)
    decreases |lst|
  {
    if sep !in lst {
      SplitNoSep(lst, sep);
      if lst != [] {
        assert lst[|lst| - 1] in lst;
        RejoinCons(Some(lst), [], sep);
      }
    } else {
      var w, rest := SplitAtFirst(lst, sep);
      calc {
        Rejoin(Split(lst, sep), sep);
        Rejoin([Cut(w)] + Split(rest, sep), sep);
        { RejoinCons(Cut(w), Split(rest, sep), sep); assert Content(Cut(w)) == w; }
        w + [sep] + Rejoin(Split(rest, sep), sep);
        { RejoinSplit(rest, sep); }
        w + [sep] + Terminated(rest, sep);
        { TerminatedAfter(w, rest, sep); }
        Terminated(lst, sep);
      }
    }
  }

  lemma {:induction false} TerminatedAfter(w: seq<Token>, rest: seq<Token>, sep: Token)
    ensures Terminated(w + [sep] + rest, sep) == w + [sep] + Terminated(rest, sep)
  {
    var lst := w + [sep] + rest;
    if rest != [] {
      assert lst[|lst| - 1] == rest[|rest| - 1];
      assert lst + [sep] == w + [sep] + (rest + [sep]);
    } else {
      assert lst == w + [sep] + [];
    }
  }

  /** Round trip the other way: well-formed entries are recovered from their rejoined tokens. */
  lemma {:induction false} SplitRejoin(entries: seq<Entry>, sep: Token)
    requires WellFormed(entries, sep)
    ensures Split(Rejoin(entries, sep), sep) == entries
    decreases |entries|
  {
    if entries != [] {
      var g := Content(entries[0]);
      assert entries[0].Some? ==> entries[0].value != [] && sep !in entries[0].value;
      assert WellFormed(entries[1..], sep) by {
        forall i | 0 <= i < |entries[1..]| && entries[1..][i].Some?
          ensures entries[1..][i].value != [] && sep !in entries[1..][i].value
        {
          assert entries[1..][i] == entries[i + 1];
        }
      }
      SplitRejoin(entries[1..], sep);
      SplitAfter(g, Rejoin(entries[1..], sep), sep);
      assert Cut(g) == entries[0];
      assert entries == [entries[0]] + entries[1..];
    }
  }
}
