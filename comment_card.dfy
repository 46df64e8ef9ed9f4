/** The string rules of one comment card (client/src/components/Comment.tsx):
    the avatar initials, the avatar colour bucket and the accessible name of
    the delete button. */
module CommentCard {
  import opened Threads

  /** `s.split(" ")`: the pieces between single spaces, empty pieces included
      (so `""` splits into `[""]` and a double space yields an empty piece). */
  function Split(s: string): (words: seq<string>)
    ensures |words| >= 1
    ensures forall w :: w in words ==> ' ' !in w
  {
    if s == [] then [""]
    else
      var rest := Split(s[1..]);
      if s[0] == ' ' then [""] + rest
      else [[s[0]] + rest[0]] + rest[1..]
  }

  /** The number of characters in all the pieces together. */
  function TotalLength(words: seq<string>): nat
  {
    if words == [] then 0 else |words[0]| + TotalLength(words[1..])
  }

  /** `words.join(sep)`: the pieces in order, one separator between each two;
      it starts with the first piece. */
  function Join(words: seq<string>, sep: string): (r: string)
    requires |words| >= 1
    ensures |r| == TotalLength(words) + (|words| - 1) * |sep|
    ensures words[0] <= r
  {
    if |words| == 1 then words[0]
    else
      var rest := Join(words[1..], sep);
      assert (|words| - 1) * |sep| == |sep| + (|words| - 2) * |sep|;
      words[0] + sep + rest
  }

  /** Splitting loses nothing: joining the pieces with single spaces gives the
      string back. */
  lemma {:induction false} JoinSplit(s: string)
    ensures Join(Split(s), " ") == s
  {
    if s != [] {
      var rest := Split(s[1..]);
      JoinSplit(s[1..]);
      if s[0] == ' ' {
        assert Split(s)[1..] == rest;
      } else {
        var words := Split(s);
        assert words[1..] == rest[1..];
        if |rest| > 1 {
          assert Join(rest, " ") == rest[0] + " " + Join(rest[1..], " ");
          assert Join(words, " ") == ([s[0]] + rest[0]) + " " + Join(rest[1..], " ");
        }
        assert s == [s[0]] + s[1..];
      }
    }
  }

  /** A space-free piece splits into itself. */
  lemma {:induction false} SplitWord(w: string)
    requires ' ' !in w
    ensures Split(w) == [w]
  {
    if w != [] {
      SplitWord(w[1..]);
      assert [w[0]] + w[1..] == w;
    }
  }

  /** A space-free piece followed by a space splits off as one piece. */
  lemma {:induction false} SplitAfterWord(w: string, t: string)
    requires ' ' !in w
    ensures Split(w + " " + t) == [w] + Split(t)
  {
    var s := w + " " + t;
    if w == [] {
      assert s[1..] == t;
    } else {
      assert s[1..] == w[1..] + " " + t;
      SplitAfterWord(w[1..], t);
      assert [w[0]] + w[1..] == w;
    }
  }

  /** The other direction of the round trip: pieces without spaces, joined
      with single spaces, split back into the same pieces. */
  lemma {:induction false} SplitJoin(words: seq<string>)
    requires |words| >= 1
    requires forall w :: w in words ==> ' ' !in w
    ensures Split(Join(words, " ")) == words
  {
    if |words| == 1 {
      SplitWord(words[0]);
    } else {
      SplitJoin(words[1..]);
      SplitAfterWord(words[0], Join(words[1..], " "));
      assert words == [words[0]] + words[1..];
    }
  }

  /** `.map((name) => name[0]).join("")`: the first character of each piece;
      an empty piece gives `undefined`, which `join` renders as nothing. */
  function Leaders(words: seq<string>): (r: string)
    ensures |r| <= |words|
    ensures (forall i :: 0 <= i < |words| ==> words[i] != []) ==>
              |r| == |words| && forall i :: 0 <= i < |words| ==> r[i] == words[i][0]
  {
    if words == [] then []
    else
      var rest := Leaders(words[1..]);
      (if words[0] == [] then [] else [words[0][0]]) + rest
  }

  /** The characters of `s` that begin a word: not a space, and either first
      (when `afterSpace`) or right after a space. */
  function WordStarts(s: string, afterSpace: bool): (r: string)
    ensures ' ' !in r
    ensures |r| <= |s|
  {
    if s == [] then []
    else (if s[0] != ' ' && afterSpace then [s[0]] else []) + WordStarts(s[1..], s[0] == ' ')
  }

  /** The first characters of the split pieces are exactly the characters that
      begin a word, in order; the pieces after the first contribute the word
      starts of a string that is not at a word boundary. */
  lemma {:induction false} LeadersAreWordStarts(s: string)
    ensures Leaders(Split(s)) == WordStarts(s, true)
    ensures Leaders(Split(s)[1..]) == WordStarts(s, false)
  {
    if s != [] {
      var rest := Split(s[1..]);
      LeadersAreWordStarts(s[1..]);
      if s[0] == ' ' {
        assert Split(s)[1..] == rest;
      } else {
        assert Split(s)[1..] == rest[1..];
      }
    }
  }

  /** `toUpperCase` on one character, for the ASCII letters. */
  function UpperChar(c: char): char
  {
    if 'a' <= c <= 'z' then (c as int - 32) as char else c
  }

  /** `toUpperCase`, character by character: no lower-case letter is left,
      each lower-case letter becomes the capital at the same place in the
      alphabet, and every other character stays as it is. */
  function Upper(s: string): (u: string)
    ensures |u| == |s|
    ensures forall i :: 0 <= i < |u| ==> !('a' <= u[i] <= 'z')
    ensures forall i :: 0 <= i < |s| && 'a' <= s[i] <= 'z' ==>
              'A' <= u[i] <= 'Z' && u[i] as int - 'A' as int == s[i] as int - 'a' as int
    ensures forall i :: 0 <= i < |s| && !('a' <= s[i] <= 'z') ==> u[i] == s[i]
  {
    seq(|s|, i requires 0 <= i < |s| => UpperChar(s[i]))
  }

  /** Upper-casing twice is upper-casing once. */
  lemma UpperIdempotent(s: string)
    ensures Upper(Upper(s)) == Upper(s)
  {
  }

  /** Upper-casing commutes with cutting a prefix. */
  lemma UpperPrefix(s: string, n: nat)
    requires n <= |s|
    ensures Upper(s)[..n] == Upper(s[..n])
  {
    assert forall i :: 0 <= i < n ==> Upper(s)[i] == UpperChar(s[i]) == Upper(s[..n])[i];
  }

  /** The `initials` expression: first characters of the pieces, joined,
      upper-cased, cut to two. */
  function Initials(author: string): (r: string)
    ensures |r| <= 2
  {
    var all := Upper(Leaders(Split(author)));
    if |all| <= 2 then all else all[..2]
  }

  /** The initials are the upper-cased first two characters that begin a word
      of the author's name; empty pieces (a double space, a leading space)
      contribute nothing. */
  lemma InitialsAreFirstWordStarts(author: string)
    ensures var starts := WordStarts(author, true);
            Initials(author) == Upper(if |starts| <= 2 then starts else starts[..2])
    ensures forall i :: 0 <= i < |Initials(author)| ==> Initials(author)[i] != ' '
  {
    LeadersAreWordStarts(author);
    var starts := WordStarts(author, true);
    var short := if |starts| <= 2 then starts else starts[..2];
    if |starts| > 2 {
      UpperPrefix(starts, 2);
    }
    assert Initials(author) == Upper(short);
    forall i | 0 <= i < |short| ensures Upper(short)[i] != ' ' {
      assert short[i] in starts;
    }
  }

  /** `charCodeAt(0)`: the first UTF-16 code unit of a character, which is the
      character itself inside the Basic Multilingual Plane and its high
      surrogate beyond it. */
  function FirstCodeUnit(c: char): (u: int)
    ensures 0 <= u < 0x10000
    ensures c as int < 0x10000 ==> u == c as int
    ensures c as int >= 0x10000 ==> 0xD800 <= u < 0xDC00
    ensures c as int >= 0x10000 ==>
              (u - 0xD800) * 0x400 <= c as int - 0x10000 < (u - 0xD800 + 1) * 0x400
  {
    if c as int < 0x10000 then c as int else 0xD800 + (c as int - 0x10000) / 0x400
  }

  /** `avatarColorIndex`: one of five colour buckets, chosen by the first code
      unit of the name. An empty name gives NaN in the source, so it is
      excluded here. */
  function AvatarColorIndex(author: string): (k: int)
    requires author != []
    ensures 1 <= k <= 5
  {
    FirstCodeUnit(author[0]) % 5 + 1
  }

  /** The delete button's `aria-label`. */
  function DeleteLabel(author: string): (name: string)
    ensures |name| == 18 + |author|
    ensures name[..18] == "Delete comment by " && name[18..] == author
  {
    "Delete comment by " + author
  }

  /** Different authors give different delete-button names, so each button
      names the one card it deletes. */
  lemma DeleteLabelNamesAuthor(a: string, b: string)
    ensures DeleteLabel(a) == DeleteLabel(b) <==> a == b
  {
    if DeleteLabel(a) == DeleteLabel(b) {
      assert a == DeleteLabel(a)[18..];
    }
  }

  /** What one rendered `Comment` shows and does, as far as the model keeps it:
      the author heading, the body, the raw timestamp, the avatar initials and
      colour (`None` where the source computes NaN), the delete button's name
      and the one callback it invokes, and the parent/reply styling. */
  datatype Card<A> = Card(author: string, body: string, postedAt: int,
                          initials: string, avatarColor: Option<int>,
                          deleteLabel: string, onDelete: A, isParent: bool)

  function RenderCard<A>(author: string, body: string, postedAt: int, onDelete: A, isParent: bool): (card: Card<A>)
    ensures card.author == author && card.body == body && card.postedAt == postedAt
    ensures card.onDelete == onDelete && card.isParent == isParent
    ensures card.initials == Initials(author) && |card.initials| <= 2
    ensures card.avatarColor.Some? <==> author != []
    ensures author != [] ==> card.avatarColor == Some(AvatarColorIndex(author))
    ensures card.avatarColor.Some? ==> 1 <= card.avatarColor.value <= 5
    ensures card.deleteLabel == "Delete comment by " + author
  {
    Card(author, body, postedAt, Initials(author),
         if author == [] then None else Some(AvatarColorIndex(author)),
         DeleteLabel(author), onDelete, isParent)
  }
}
