/**
 Splitting and joining strings on a separator, with the meaning Python gives
 `str.split(sep)` and `sep.join(list)`, and the word splitting a POSIX shell
 applies to a command line made only of plain words and single spaces.
 */
module Text {

  /** Python's `s.split(sep)` for a one-character separator: consecutive
      separators yield empty pieces and `"".split(sep) == [""]`. */
  function Split(s: string, sep: char): (r: seq<string>)
    ensures |r| > 0
    ensures forall i :: 0 <= i < |r| ==> sep !in r[i]
    ensures |r| == 1 <==> sep !in s
  {
    if |s| == 0 then [""]
    else
      var rest := Split(s[1..], sep);
      if s[0] == sep then [""] + rest
      else [[s[0]] + rest[0]] + rest[1..]
  }

  /** Python's `sep.join(xs)`. */
  function Join(xs: seq<string>, sep: string): string
  {
    if |xs| == 0 then ""
    else if |xs| == 1 then xs[0]
    else xs[0] + sep + Join(xs[1..], sep)
  }

  /** True iff no piece contains the separator character. */
  predicate Separable(xs: seq<string>, sep: char)
  {
    forall i :: 0 <= i < |xs| ==> sep !in xs[i]
  }

  /** Prefixing a character to the first piece prefixes it to the joined string. */
  lemma JoinPrefixHead(c: char, xs: seq<string>, sep: string)
    requires |xs| > 0
    ensures Join([[c] + xs[0]] + xs[1..], sep) == [c] + Join(xs, sep)
  {
    var ys := [[c] + xs[0]] + xs[1..];
    if |xs| > 1 {
      assert ys[1..] == xs[1..];
      calc {
        Join(ys, sep);
        ([c] + xs[0]) + sep + Join(xs[1..], sep);
        [c] + (xs[0] + sep + Join(xs[1..], sep));
      }
    }
  }

  /** The pieces of `s` on `sep` re-joined with `sep` give back `s`, whatever `s` is. */
  lemma {:induction false} JoinSplit(s: string, sep: char)
    ensures Join(Split(s, sep), [sep]) == s
    decreases |s|
  {
    if |s| > 0 {
      var rest := Split(s[1..], sep);
      JoinSplit(s[1..], sep);
      assert s == [s[0]] + s[1..];
      if s[0] == sep {
        assert ([""] + rest)[1..] == rest;
      } else {
        JoinPrefixHead(s[0], rest, [sep]);
      }
    }
  }

  /** Splitting a piece free of the separator yields that piece alone. */
  lemma {:induction false} SplitPlain(a: string, sep: char)
    requires sep !in a
    ensures Split(a, sep) == [a]
    decreases |a|
  {
    if |a| > 0 {
      SplitPlain(a[1..], sep);
      assert [a[0]] + a[1..] == a;
    }
  }

  /** A separator-free head followed by the separator splits off as the first piece. */
  lemma {:induction false} SplitHead(a: string, sep: char, b: string)
    requires sep !in a
    ensures Split(a + [sep] + b, sep) == [a] + Split(b, sep)
    decreases |a|
  {
    if |a| == 0 {
      assert a + [sep] + b == [sep] + b;
      assert ([sep] + b)[1..] == b;
    } else {
      var s := a + [sep] + b;
      assert s[0] == a[0];
      assert s[1..] == a[1..] + [sep] + b;
      SplitHead(a[1..], sep, b);
      assert [a[0]] + a[1..] == a;
    }
  }

  /** Joining separator-free pieces and splitting again gives back the pieces:
      the converse of JoinSplit. */
  lemma {:induction false} SplitJoin(xs: seq<string>, sep: char)
    requires |xs| > 0
    requires Separable(xs, sep)
    ensures Split(Join(xs, [sep]), sep) == xs
    decreases |xs|
  {
    if |xs| == 1 {
      SplitPlain(xs[0], sep);
    } else {
      SplitJoin(xs[1..], sep);
      SplitHead(xs[0], sep, Join(xs[1..], [sep]));
      assert xs == [xs[0]] + xs[1..];
    }
  }

  /** The non-empty strings of `xs`, in order. */
  function NonEmpty(xs: seq<string>): (r: seq<string>)
    ensures |r| <= |xs|
    ensures forall i :: 0 <= i < |r| ==> r[i] != ""
  {
    if |xs| == 0 then []
    else if xs[0] == "" then NonEmpty(xs[1..])
    else [xs[0]] + NonEmpty(xs[1..])
  }

  /** A character `/bin/sh` takes literally inside an unquoted word: an ASCII
      letter or digit, or one of `- _ . / , : + @ %`. Whitespace, quotes, `$`,
      backquotes, backslashes, `;`, `&`, `|`, redirections, glob characters, `#` and `~`
      are all excluded. */
  predicate ShellPlain(c: char)
  {
    || ('a' <= c <= 'z') || ('A' <= c <= 'Z') || ('0' <= c <= '9')
    || c in "-_./,:+@%"
  }

  /** A plain shell word: non-empty and made of characters the shell takes
      literally, so it is one word that reaches the command unchanged. */
  predicate Word(s: string)
  {
    s != "" && forall i :: 0 <= i < |s| ==> ShellPlain(s[i])
  }

  /** The words a shell reads from a command line built of plain words and
      spaces: the pieces between spaces, empty pieces dropped. */
  function Words(cmd: string): seq<string>
  {
    NonEmpty(Split(cmd, ' '))
  }

  /** A command line made by joining space-free pieces with single spaces is read
      back as those pieces, less the empty ones. */
  lemma WordsOfJoin(xs: seq<string>)
    requires |xs| > 0
    requires Separable(xs, ' ')
    ensures Words(Join(xs, " ")) == NonEmpty(xs)
  {
    SplitJoin(xs, ' ');
  }

  /** Dropping empty strings distributes over concatenation. */
  lemma {:induction false} NonEmptyAppend(xs: seq<string>, ys: seq<string>)
    ensures NonEmpty(xs + ys) == NonEmpty(xs) + NonEmpty(ys)
    decreases |xs|
  {
    if |xs| == 0 {
      assert xs + ys == ys;
    } else {
      assert (xs + ys)[1..] == xs[1..] + ys;
      NonEmptyAppend(xs[1..], ys);
    }
  }

  /** Each string followed by one space: what `cmd += x + ' '` appends, step by step. */
  function Spaced(xs: seq<string>): string
  {
    if |xs| == 0 then "" else xs[0] + " " + Spaced(xs[1..])
  }

  lemma {:induction false} SpacedAppend(xs: seq<string>, ys: seq<string>)
    ensures Spaced(xs + ys) == Spaced(xs) + Spaced(ys)
    decreases |xs|
  {
    if |xs| == 0 {
      assert xs + ys == ys;
    } else {
      assert (xs + ys)[1..] == xs[1..] + ys;
      SpacedAppend(xs[1..], ys);
      calc {
        Spaced(xs + ys);
        xs[0] + " " + Spaced(xs[1..] + ys);
        xs[0] + " " + (Spaced(xs[1..]) + Spaced(ys));
        (xs[0] + " " + Spaced(xs[1..])) + Spaced(ys);
      }
    }
  }

  /** Space-terminated words in front of a joined tail make one joined line. */
  lemma {:induction false} SpacedJoin(xs: seq<string>, ys: seq<string>)
    requires |ys| > 0
    ensures Spaced(xs) + Join(ys, " ") == Join(xs + ys, " ")
    decreases |xs|
  {
    if |xs| == 0 {
      assert xs + ys == ys;
    } else {
      assert (xs + ys)[1..] == xs[1..] + ys;
      SpacedJoin(xs[1..], ys);
      calc {
        Join(xs + ys, " ");
        xs[0] + " " + Join(xs[1..] + ys, " ");
        xs[0] + " " + (Spaced(xs[1..]) + Join(ys, " "));
        (xs[0] + " " + Spaced(xs[1..])) + Join(ys, " ");
      }
    }
  }

  /** A line assembled from six space-terminated runs of words and a final
      `flag value` pair is those words joined by single spaces. */
  lemma SpacedLine(a: seq<string>, b: seq<string>, c: seq<string>, d: seq<string>,
                   e: seq<string>, f: seq<string>, flag: string, value: string)
    ensures Spaced(a) + Spaced(b) + Spaced(c) + Spaced(d) + Spaced(e) + Spaced(f) + (flag + " ") + value
         == Join(a + b + c + d + e + f + [flag, value], " ")
  {
    var tail := [flag, value];
    assert tail[1..] == [value];
    assert Join(tail, " ") == flag + " " + value;
    SpacedAppend(a, b);
    SpacedAppend(a + b, c);
    SpacedAppend(a + b + c, d);
    SpacedAppend(a + b + c + d, e);
    SpacedAppend(a + b + c + d + e, f);
    SpacedJoin(a + b + c + d + e + f, tail);
  }

  /** Every string of `xs` is a plain shell word. */
  predicate AllWords(xs: seq<string>)
  {
    forall i :: 0 <= i < |xs| ==> Word(xs[i])
  }

  lemma WordHasNoSpace(s: string)
    requires Word(s)
    ensures ' ' !in s
  {
    forall i | 0 <= i < |s|
      ensures s[i] != ' '
    {
      assert ShellPlain(s[i]);
    }
  }

  /** Plain words can be joined with spaces and split apart again. */
  lemma PlainWordsSeparable(xs: seq<string>)
    requires AllWords(xs)
    ensures Separable(xs, ' ')
  {
    forall i | 0 <= i < |xs|
      ensures ' ' !in xs[i]
    {
      WordHasNoSpace(xs[i]);
    }
  }

  lemma {:induction false} NonEmptyOfWords(xs: seq<string>)
    requires AllWords(xs)
    ensures NonEmpty(xs) == xs
    decreases |xs|
  {
    if |xs| > 0 {
      NonEmptyOfWords(xs[1..]);
      assert xs == [xs[0]] + xs[1..];
    }
  }

  /** Plain words joined by single spaces are read back as exactly those words. */
  lemma WordsOfPlainLine(xs: seq<string>)
    requires |xs| > 0 && AllWords(xs)
    ensures Words(Join(xs, " ")) == xs
  {
    PlainWordsSeparable(xs);
    WordsOfJoin(xs);
    NonEmptyOfWords(xs);
  }

  /** Regrouping a concatenation of seven sequences to the right. */
  lemma Regroup<T>(a: seq<T>, b: seq<T>, c: seq<T>, d: seq<T>, e: seq<T>, f: seq<T>, g: seq<T>)
    ensures a + b + c + d + e + f + g == a + (b + (c + (d + (e + (f + g)))))
  {
  }

  lemma SpacedTwo(a: string, b: string)
    ensures Spaced([a, b]) == a + " " + b + " "
  {
    assert [a, b][1..] == [b];
    assert [b][1..] == [];
    calc {
      Spaced([a, b]);
      a + " " + Spaced([b]);
      a + " " + (b + " " + "");
      a + " " + b + " ";
    }
  }

  lemma SpacedFour(a: string, b: string, c: string, d: string)
    ensures Spaced([a, b, c, d]) == a + " " + b + " " + c + " " + d + " "
  {
    assert [a, b, c, d] == [a, b] + [c, d];
    SpacedAppend([a, b], [c, d]);
    SpacedTwo(a, b);
    SpacedTwo(c, d);
  }

  /** A line of space-terminated pieces and a last piece, all free of spaces, is
      read as those pieces, less the empty ones. */
  lemma WordsOfSpacedLine(front: seq<string>, last: string)
    requires Separable(front + [last], ' ')
    ensures Words(Spaced(front) + last) == NonEmpty(front + [last])
  {
    SpacedJoin(front, [last]);
    WordsOfJoin(front + [last]);
  }

  /** Plain words, each but the last followed by a space, are read back as exactly
      those words. */
  lemma WordsOfPlainFront(front: seq<string>, last: string)
    requires AllWords(front + [last])
    ensures Words(Spaced(front) + last) == front + [last]
  {
    PlainWordsSeparable(front + [last]);
    WordsOfSpacedLine(front, last);
    NonEmptyOfWords(front + [last]);
  }

  lemma SeparableAroundEmpty(front: seq<string>, back: seq<string>)
    requires Separable(front, ' ') && Separable(back, ' ')
    ensures Separable(front + [""] + back, ' ')
  {
    var xs := front + [""] + back;
    forall i | 0 <= i < |xs|
      ensures ' ' !in xs[i]
    {
      if i < |front| {
        assert xs[i] == front[i];
      } else if i > |front| {
        assert xs[i] == back[i - |front| - 1];
      }
    }
  }

  lemma NonEmptySkipsEmpty(front: seq<string>, back: seq<string>)
    requires AllWords(front) && AllWords(back)
    ensures NonEmpty(front + [""] + back) == front + back
  {
    NonEmptyAppend(front + [""], back);
    NonEmptyAppend(front, [""]);
    NonEmptyOfWords(front);
    NonEmptyOfWords(back);
  }

  /** An empty piece between plain words, a doubled space in the line, adds no word. */
  lemma WordsSkipEmpty(front: seq<string>, back: seq<string>)
    requires |front| > 0 && AllWords(front) && AllWords(back)
    ensures Words(Join(front + [""] + back, " ")) == front + back
  {
    PlainWordsSeparable(front);
    PlainWordsSeparable(back);
    SeparableAroundEmpty(front, back);
    WordsOfJoin(front + [""] + back);
    NonEmptySkipsEmpty(front, back);
  }

  /** Six pieces, each followed by a space. */
  lemma SpacedSix(a: string, b: string, c: string, d: string, e: string, f: string)
    ensures Spaced([a, b, c, d, e, f])
         == a + " " + b + " " + c + " " + d + " " + e + " " + f + " "
  {
    assert [a, b, c, d, e, f] == [a, b, c, d] + [e, f];
    SpacedAppend([a, b, c, d], [e, f]);
    SpacedFour(a, b, c, d);
    SpacedTwo(e, f);
  }
}
