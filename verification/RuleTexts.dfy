/** What the rules read off handles, addresses and names, said of the texts themselves. */
module RuleTexts {
  import opened Text
  import opened Wrappers
  import opened Naming
  import opened Connections
  import opened SafetyChecks
  import opened RuleMatching

  // ---------------------------------------------------------------- letters and white space

  /** Case folding turns the capital letters into the small ones and leaves everything else. */
  lemma LowerCharIs(c: char)
    ensures 'A' <= c <= 'Z' ==>
      'a' <= LowerChar(c) <= 'z' && LowerChar(c) as int - 'a' as int == c as int - 'A' as int
    ensures !('A' <= c <= 'Z') ==> LowerChar(c) == c
  {
  }

  lemma WhiteSpaceIs(c: char)
    ensures c in {' ', '\t', '\n', '\r', '\U{00A0}', '\U{2003}', '\U{3000}'} ==> IsSpace(c)
    ensures 'a' <= c <= 'z' || 'A' <= c <= 'Z' || '0' <= c <= '9' || c in {'@', '.', '-', '\'', '_', ':'} ==>
      !IsSpace(c)
  {
  }

  // ---------------------------------------------------------------- addresses and handles

  /** What precedes the first c. */
  lemma {:induction false} BeforeIs(text: string, c: char, n: nat)
    requires n <= |text| && (n < |text| ==> text[n] == c) && forall k :: 0 <= k < n ==> text[k] != c
    ensures Before(text, c) == text[..n]
    decreases n
  {
    if n > 0 {
      BeforeIs(text[1..], c, n - 1);
      assert text[..n] == [text[0]] + text[1..][..n - 1];
    }
  }

  /** An address is a role address iff its local part, in whatever case, is one of ten words. */
  lemma RoleAddressIff(local: string, rest: string)
    requires '@' !in local && (rest == "" || rest[0] == '@')
    ensures IsGenericRole(local + rest) <==>
      LowerText(local) in {"support", "info", "admin", "sales", "team", "reception", "noreply", "contact", "hello",
                           "office"}
  {
    var address := local + rest;
    assert forall k :: 0 <= k < |local| ==> address[k] == local[k] && local[k] in local;
    BeforeIs(address, '@', |local|);
    assert address[..|local|] == local;
  }

  lemma CapitalsDoNotMatter()
    ensures IsGenericRole("Support@acme.com")
  {
    assert "Support@acme.com" == "Support" + "@acme.com" && LowerText("Support") == "support";
    hide IsGenericRole, LowerText;
    RoleAddressIff("Support", "@acme.com");
  }

  lemma NamesAreNoRoles()
    ensures !IsGenericRole("jane@acme.com")
  {
    assert "jane@acme.com" == "jane" + "@acme.com" && LowerText("jane")[0] == 'j';
    hide IsGenericRole, LowerText;
    RoleAddressIff("jane", "@acme.com");
  }

  /**
    A handle gives a number iff it is no group's, has an '@', and starts with digits up to the '@' or to
    the ':' of a device suffix.
   */
  lemma PhoneDigitsIff(handle: string, digits: string)
    ensures PhoneDigits(handle) == Some(digits) <==>
      && '@' in handle && !(|handle| >= 5 && handle[|handle| - 5..] == "@g.us")
      && digits != "" && (forall k :: 0 <= k < |digits| ==> '0' <= digits[k] <= '9')
      && |digits| < |handle| && handle[..|digits|] == digits && handle[|digits|] in {'@', ':'}
  {
    if '@' in handle {
      var n := NumberEnds(handle);
      hide Before;
      if digits != "" && |digits| < |handle| && handle[..|digits|] == digits && handle[|digits|] in {'@', ':'}
         && forall k :: 0 <= k < |digits| ==> '0' <= digits[k] <= '9' {
        assert forall k :: 0 <= k < |digits| ==> handle[k] == digits[k];
        assert n == |digits|;
      }
    }
  }

  /** The first '@' or ':'. */
  lemma NumberEnds(handle: string) returns (n: nat)
    requires '@' in handle
    ensures n < |handle| && handle[n] in {'@', ':'} && forall k :: 0 <= k < n ==> handle[k] !in {'@', ':'}
    ensures Before(Before(handle, '@'), ':') == handle[..n]
  {
    var at := FirstAt(handle, '@');
    BeforeIs(handle, '@', at);
    var local := handle[..at];
    assert forall k :: 0 <= k < at ==> local[k] == handle[k];
    n := FirstAt(local, ':');
    BeforeIs(local, ':', n);
    assert local[..n] == handle[..n];
  }

  /** The first position of c, or the length. */
  function FirstAt(text: string, c: char): (n: nat)
    ensures n <= |text| && (n < |text| <==> c in text) && (n < |text| ==> text[n] == c)
    ensures forall k :: 0 <= k < n ==> text[k] != c
  {
    if text == "" || text[0] == c then 0 else 1 + FirstAt(text[1..], c)
  }

  // ---------------------------------------------------------------- names

  /** No words, one word, and words on both sides of white space: together they say what a normalised name is. */
  lemma NoWords()
    ensures NormalisedName("") == []
  {
  }

  lemma OneWord(word: string)
    requires word != "" && forall k :: 0 <= k < |word| ==> !IsSpace(word[k])
    ensures NormalisedName(word) == [LowerText(word)]
  {
    WordRead(word, "");
    assert "" + LowerText(word) == LowerText(word);
  }

  lemma {:induction false} WordRead(rest: string, word: string)
    requires (rest != "" || word != "") && forall k :: 0 <= k < |rest| ==> !IsSpace(rest[k])
    ensures Words(rest, word) == [word + LowerText(rest)]
    decreases |rest|
  {
    if rest == "" {
      assert word + LowerText("") == word;
    } else {
      WordRead(rest[1..], word + [LowerChar(rest[0])]);
      assert word + LowerText(rest) == word + [LowerChar(rest[0])] + LowerText(rest[1..]);
    }
  }

  lemma WordsOnBothSides(x: string, space: char, y: string)
    requires IsSpace(space)
    ensures NormalisedName(x + [space] + y) == NormalisedName(x) + NormalisedName(y)
  {
    WordsSplit(x, space, y, "");
  }

  lemma {:induction false} WordsSplit(x: string, space: char, y: string, word: string)
    requires IsSpace(space)
    ensures Words(x + [space] + y, word) == Words(x, word) + Words(y, "")
    decreases |x|
  {
    if x == "" {
      assert (x + [space] + y)[1..] == y;
    } else {
      assert (x + [space] + y)[1..] == x[1..] + [space] + y;
      if IsSpace(x[0]) {
        WordsSplit(x[1..], space, y, "");
      } else {
        WordsSplit(x[1..], space, y, word + [LowerChar(x[0])]);
      }
    }
  }

  /** Neither case nor the amount of white space matters. */
  lemma SameNameWritten()
    ensures NormalisedName(" Jane  SMITH") == NormalisedName("jane smith")
  {
    assert LowerText("Jane") == LowerText("jane") && LowerText("SMITH") == LowerText("smith");
    TwoWords("Jane", "SMITH");
    TwoWords("jane", "smith");
    NoWords();
    hide NormalisedName, LowerText;
    WordsOnBothSides("", ' ', "Jane  SMITH");
    WordsOnBothSides("Jane", ' ', " SMITH");
    WordsOnBothSides("", ' ', "SMITH");
    assert "" + [' '] + "Jane  SMITH" == " Jane  SMITH" && "Jane" + [' '] + " SMITH" == "Jane  SMITH";
    assert "" + [' '] + "SMITH" == " SMITH" && "jane" + [' '] + "smith" == "jane smith";
    assert "Jane" + [' '] + "SMITH" == "Jane SMITH";
  }

  lemma TwoWords(x: string, y: string)
    requires x != "" && forall k :: 0 <= k < |x| ==> !IsSpace(x[k])
    requires y != "" && forall k :: 0 <= k < |y| ==> !IsSpace(y[k])
    ensures NormalisedName(x) == [LowerText(x)] && NormalisedName(y) == [LowerText(y)]
    ensures NormalisedName(x + [' '] + y) == [LowerText(x), LowerText(y)]
  {
    OneWord(x);
    OneWord(y);
    WordsOnBothSides(x, ' ', y);
  }

  /** A connection's display name: first and last name with a space, without white space around, or none. */
  lemma DisplayNameIs(c: Connection)
    ensures var (first, last) := (if c.firstName.Some? then c.firstName.value else "",
                                  if c.lastName.Some? then c.lastName.value else "");
      DisplayName(c) == if IsBlank(first + " " + last) then None else Some(Strip(first + " " + last))
  {
  }

  // ---------------------------------------------------------------- words of a display name

  /** A maximal run of word characters. */
  ghost predicate IsWordAt(text: string, i: nat, j: nat) {
    && i < j <= |text| && (forall k :: i <= k < j ==> IsWordChar(text[k]))
    && (i > 0 ==> !IsWordChar(text[i - 1])) && (j < |text| ==> !IsWordChar(text[j]))
  }

  lemma WordCharIs(c: char)
    ensures 'a' <= c <= 'z' || 'A' <= c <= 'Z' || '0' <= c <= '9' || c == '_' || c == '\U{00E9}' ==> IsWordChar(c)
    ensures c in {' ', '.', ',', '-', '\'', '(', ')', '/', '&', '@'} ==> !IsWordChar(c)
  {
  }

  lemma {:induction false} WordCharsRead(rest: string, word: string)
    requires (rest != "" || word != "") && forall k :: 0 <= k < |rest| ==> IsWordChar(rest[k])
    ensures TokensFrom(rest, word) == {word + LowerText(rest)}
    decreases |rest|
  {
    if rest == "" {
      assert word + LowerText("") == word;
    } else {
      WordCharsRead(rest[1..], word + [LowerChar(rest[0])]);
      assert word + LowerText(rest) == word + [LowerChar(rest[0])] + LowerText(rest[1..]);
    }
  }

  lemma {:induction false} TokensSplit(x: string, c: char, y: string, word: string)
    requires !IsWordChar(c)
    ensures TokensFrom(x + [c] + y, word) == TokensFrom(x, word) + TokensFrom(y, "")
    decreases |x|
  {
    if x == "" {
      assert (x + [c] + y)[1..] == y;
    } else {
      assert (x + [c] + y)[1..] == x[1..] + [c] + y;
      if IsWordChar(x[0]) {
        TokensSplit(x[1..], c, y, word + [LowerChar(x[0])]);
      } else {
        TokensSplit(x[1..], c, y, "");
      }
    }
  }

  /** Some maximal run of word characters is the token, but for case. */
  ghost predicate HasWord(text: string, token: string) {
    exists i: nat, j: nat :: IsWordAt(text, i, j) && token == LowerText(text[i..j])
  }

  /** The tokens of a name are its maximal runs of word characters, in lower case. */
  lemma {:induction false} TokenIff(text: string, token: string)
    ensures token in Tokens(text) <==> HasWord(text, token)
    decreases |text|
  {
    if forall k :: 0 <= k < |text| ==> IsWordChar(text[k]) {
      if text != "" {
        WordCharsRead(text, "");
        assert "" + LowerText(text) == LowerText(text);
        assert IsWordAt(text, 0, |text|) && text[0..|text|] == text;
        assert forall i, j :: IsWordAt(text, i, j) ==> i == 0 && j == |text|;
      }
    } else {
      var n :| 0 <= n < |text| && !IsWordChar(text[n]);
      var (x, y) := (text[..n], text[n + 1..]);
      TokensSplit(x, text[n], y, "");
      assert x + [text[n]] + y == text;
      TokenIff(x, token);
      TokenIff(y, token);
      hide Tokens, TokensFrom, HasWord;
      WordsInParts(text, n, token);
    }
  }

  lemma WordOnTheLeft(text: string, n: nat, i: nat, j: nat)
    requires n < |text| && !IsWordChar(text[n])
    ensures IsWordAt(text[..n], i, j) <==> IsWordAt(text, i, j) && j <= n
    ensures j <= n && i <= j ==> text[..n][i..j] == text[i..j]
  {
    assert forall k :: 0 <= k < n ==> text[..n][k] == text[k];
    hide IsWordChar;
  }

  lemma WordOnTheRight(text: string, n: nat, i: nat, j: nat)
    requires n < |text| && !IsWordChar(text[n])
    ensures IsWordAt(text[n + 1..], i, j) <==> IsWordAt(text, n + 1 + i, n + 1 + j)
    ensures i <= j && n + 1 + j <= |text| ==> text[n + 1..][i..j] == text[n + 1 + i..n + 1 + j]
  {
    var y := text[n + 1..];
    assert forall k :: 0 <= k < |y| ==> y[k] == text[n + 1 + k];
    assert forall k :: n + 1 <= k < |text| ==> text[k] == y[k - n - 1];
    hide IsWordChar;
  }

  lemma WordsInParts(text: string, n: nat, token: string)
    requires n < |text| && !IsWordChar(text[n])
    ensures HasWord(text, token) <==> HasWord(text[..n], token) || HasWord(text[n + 1..], token)
  {
    hide LowerText, IsWordChar;
    if i: nat, j: nat :| IsWordAt(text, i, j) && token == LowerText(text[i..j]) {
      if j <= n {
        WordOnTheLeft(text, n, i, j);
      } else {
        assert i > n;
        WordOnTheRight(text, n, i - n - 1, j - n - 1);
      }
    }
    hide IsWordAt;
    var (x, y) := (text[..n], text[n + 1..]);
    if i: nat, j: nat :| IsWordAt(x, i, j) && token == LowerText(x[i..j]) {
      WordOnTheLeft(text, n, i, j);
    }
    if i: nat, j: nat :| IsWordAt(y, i, j) && token == LowerText(y[i..j]) {
      WordOnTheRight(text, n, i, j);
    }
  }

  /** Two names contradict iff both are given, both have a word, and no word of one is a word of the other. */
  lemma NamesContradictIff(x: Option<string>, y: Option<string>)
    ensures NamesContradict(x, y) <==>
      && x.Some? && y.Some?
      && (exists token :: HasWord(x.value, token)) && (exists token :: HasWord(y.value, token))
      && forall token :: !(HasWord(x.value, token) && HasWord(y.value, token))
  {
    hide HasWord, Tokens;
    if x.Some? && y.Some? {
      forall token
        ensures token in Tokens(x.value) <==> HasWord(x.value, token)
        ensures token in Tokens(y.value) <==> HasWord(y.value, token)
      {
        TokenIff(x.value, token);
        TokenIff(y.value, token);
      }
    }
  }
}
