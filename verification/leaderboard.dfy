/** The leaderboard table: rank numbering of the fetched users and avatar initials. */
module Leaderboard {
  import opened Wrappers
  import opened Seqs
  import opened Types

  /** `s.split(sep)`: the pieces between separators, empty pieces included. */
  function Split(s: string, sep: char): (words: seq<string>)
    ensures |words| >= 1
    ensures forall i :: 0 <= i < |words| ==> sep !in words[i]
  {
    if |s| == 0 then [""]
    else
      var rest := Split(s[1..], sep);
      if s[0] == sep then [""] + rest
      else [[s[0]] + rest[0]] + rest[1..]
  }

  /** `words.join(sep)`. */
  function Join(words: seq<string>, sep: char): string
    requires |words| >= 1
  {
    if |words| == 1 then words[0] else words[0] + [sep] + Join(words[1..], sep)
  }

  /** Joining the pieces of a split gives back the original string. */
  lemma {:induction false} JoinSplit(s: string, sep: char)
    ensures Join(Split(s, sep), sep) == s
  {
    if |s| > 0 {
      var rest := Split(s[1..], sep);
      JoinSplit(s[1..], sep);
      if s[0] == sep {
        assert ([""] + rest)[1..] == rest;
      } else {
        var words := Split(s, sep);
        assert words[1..] == rest[1..];
        if |rest| == 1 {
          assert s == [s[0]] + s[1..];
        } else {
          assert Join(rest, sep) == rest[0] + [sep] + Join(rest[1..], sep);
          assert s == [s[0]] + s[1..];
        }
      }
    }
  }

  /** Splitting text that starts with a separator-free word keeps that word in front of the
      first piece. */
  lemma {:induction false} SplitAfterWord(w: string, t: string, sep: char)
    requires sep !in w
    ensures Split(w + t, sep) == [w + Split(t, sep)[0]] + Split(t, sep)[1..]
  {
    if |w| > 0 {
      SplitAfterWord(w[1..], t, sep);
      assert (w + t)[1..] == w[1..] + t;
      assert [w[0]] + (w[1..] + Split(t, sep)[0]) == w + Split(t, sep)[0];
    } else {
      var rest := Split(t, sep);
      assert w + t == t;
      assert w + rest[0] == rest[0];
      assert [rest[0]] + rest[1..] == rest;
    }
  }

  /** Splitting the join of separator-free words gives back the words. */
  lemma {:induction false} SplitJoin(words: seq<string>, sep: char)
    requires |words| >= 1
    requires forall i :: 0 <= i < |words| ==> sep !in words[i]
    ensures Split(Join(words, sep), sep) == words
  {
    if |words| == 1 {
      SplitAfterWord(words[0], "", sep);
      assert words[0] + "" == words[0];
    } else {
      var t := [sep] + Join(words[1..], sep);
      SplitJoin(words[1..], sep);
      assert t[1..] == Join(words[1..], sep);
      assert Split(t, sep) == [""] + words[1..];
      SplitAfterWord(words[0], t, sep);
      assert words[0] + t == Join(words, sep);
      assert words[0] + "" == words[0];
      assert [words[0]] + words[1..] == words;
    }
  }

  /** ASCII upper-casing: a to z become A to Z; every other character is kept. */
  function UpperChar(c: char): (u: char)
    ensures 'a' <= c <= 'z' ==> 'A' <= u <= 'Z' && u as int == c as int - 32
    ensures !('a' <= c <= 'z') ==> u == c
  {
    if 'a' <= c <= 'z' then (c as int - 32) as char else c
  }

  function Upper(s: string): (r: string)
    ensures |r| == |s|
    ensures forall i :: 0 <= i < |s| ==> r[i] == UpperChar(s[i])
  {
    seq(|s|, i requires 0 <= i < |s| => UpperChar(s[i]))
  }

  /** `words.map(n => n[0]).join('')`: an empty word's missing first character joins as nothing. */
  function FirstChars(words: seq<string>): string {
    if |words| == 0 then ""
    else (if |words[0]| > 0 then [words[0][0]] else "") + FirstChars(words[1..])
  }

  function NonEmptyWords(name: string): seq<string> {
    Filter(Split(name, ' '), (w: string) => |w| > 0)
  }

  /** One character per non-empty word: the first character of each, in order. */
  lemma {:induction false} FirstCharsOfNonEmpty(words: seq<string>)
    ensures var ne := Filter(words, (w: string) => |w| > 0);
            && |FirstChars(words)| == |ne|
            && forall k :: 0 <= k < |ne| ==> |ne[k]| > 0 && FirstChars(words)[k] == ne[k][0]
  {
    if |words| > 0 {
      FirstCharsOfNonEmpty(words[1..]);
    }
  }

  /** `getInitials`: the upper-cased first character of every space-separated word. */
  function Initials(name: string): (r: string)
    ensures |r| == |NonEmptyWords(name)|
    ensures forall k :: 0 <= k < |r| ==> |NonEmptyWords(name)[k]| > 0 && r[k] == UpperChar(NonEmptyWords(name)[k][0])
  {
    FirstCharsOfNonEmpty(Split(name, ' '));
    Upper(FirstChars(Split(name, ' ')))
  }

  /** The avatar fallback: initials of the username, or of ".." when it is empty. */
  function AvatarInitials(username: string): (r: string)
    ensures username != "" ==> r == Initials(username)
  {
    Initials(if username == "" then ".." else username)
  }

  lemma EmptyUsernameInitials()
    ensures AvatarInitials("") == "."
  {
    var e := Split("", ' ');
    assert e == [""];
    assert "."[0] == '.' && "."[1..] == "";
    var one := Split(".", ' ');
    assert one == [['.'] + e[0]] + e[1..];
    assert ['.'] + e[0] == "." && e[1..] == [];
    assert one == ["."];
    assert ".."[0] == '.' && ".."[1..] == ".";
    var two := Split("..", ' ');
    assert two == [['.'] + one[0]] + one[1..];
    assert ['.'] + one[0] == ".." && one[1..] == [];
    assert two == [".."];
    assert Filter([".."], (w: string) => |w| > 0) == [".."];
  }

  /** The name shown in a row: the username, or "Anonymous User" when it is empty. */
  function DisplayName(username: string): (name: string)
    ensures name != ""
    ensures username != "" <==> name == username
    ensures username == "" ==> name == "Anonymous User"
  {
    if username == "" then "Anonymous User" else username
  }

  /** A user row with its 1-based position. */
  datatype RankedUser = RankedUser(user: UserData, rank: int)

  /** Numbers the fetched users 1, 2, ... in the order received; no result yields no rows. */
  function RankUsers(users: Option<seq<UserData>>): (r: seq<RankedUser>)
    ensures users.None? ==> r == []
    ensures users.Some? ==> |r| == |users.value|
    ensures users.Some? ==> forall i :: 0 <= i < |r| ==> r[i].user == users.value[i]
    ensures forall i :: 0 <= i < |r| ==> r[i].rank == i + 1
    ensures forall i, j :: 0 <= i < j < |r| ==> r[i].rank < r[j].rank
    ensures forall i :: 0 <= i < |r| ==> 1 <= r[i].rank <= |r|
  {
    match users
    case None => []
    case Some(us) => seq(|us|, i requires 0 <= i < |us| => RankedUser(us[i], i + 1))
  }
}
