/** `verify_token`: the `Bearer ` format check on an `Authorization` value and the extraction of the token part. */
module Auth {
  import opened Wrappers
  import opened Text
  import opened Http

  const BearerPrefix: string := "Bearer "

  /** The 401 `verify_token` raises. */
  const InvalidTokenFormat: HttpError := HttpError(401, "Invalid token format. Use 'Bearer YOUR_GITHUB_TOKEN'")

  /** The first space of a value that starts with `Bearer ` is the one that ends the prefix. */
  lemma FirstSpaceAfterBearer(token: string)
    requires StartsWith(token, BearerPrefix)
    ensures Find(token, " ") == Some(6)
  {
    assert StartsWith(token[6..], " ");
    ContainsIff(token, " ");
    var i := Find(token, " ").value;
    assert i <= 6;
    assert token[i] == token[i..i + 1][0] == ' ';
    assert forall j :: 0 <= j < 6 ==> token[j] == token[..7][j] == BearerPrefix[j] != ' ';
  }

  /**
   * `verify_token(token)`: a missing or empty value, or one that does not start
   * with exactly `Bearer ` (case and trailing space included), raises 401;
   * otherwise the answer is `token.split(" ")[1]`, always a string.
   */
  function VerifyToken(token: Option<string>): (r: Result<string, HttpError>)
    ensures r.Err? <==> token.None? || !StartsWith(token.value, BearerPrefix)
    ensures r.Err? ==> r.error == InvalidTokenFormat
    ensures r.Ok? ==> r.value == UpTo(token.value[|BearerPrefix|..], " ")
  {
    if token.None? || token.value == "" || !StartsWith(token.value, BearerPrefix) then Err(InvalidTokenFormat)
    else
      var pieces := Split(token.value, " ");
      FirstSpaceAfterBearer(token.value);
      SplitFirstIsUpTo(token.value[7..], " ");
      assert pieces == [token.value[..6]] + Split(token.value[7..], " ");
      Ok(pieces[1])
  }

  /**
   * The token part is the text between the first and the second space: it
   * follows the prefix, holds no space, and is either all of the rest or is
   * followed by a space.
   */
  lemma VerifyTokenExtractsWord(token: string)
    requires StartsWith(token, BearerPrefix)
    ensures VerifyToken(Some(token)).Ok?
    ensures var w := VerifyToken(Some(token)).value;
      StartsWith(token, BearerPrefix + w) && !Contains(w, " ") &&
      (|BearerPrefix + w| == |token| || token[|BearerPrefix + w|] == ' ')
  {
    var w := VerifyToken(Some(token)).value;
    var rest := token[|BearerPrefix|..];
    assert StartsWith(rest, w);
    assert token == BearerPrefix + rest;
    assert (BearerPrefix + w) == token[..|BearerPrefix + w|];
    if w != rest {
      assert StartsWith(rest[|w|..], " ");
      assert token[|BearerPrefix + w|] == rest[|w|];
    }
  }

  /** `"Bearer abc"` gives `"abc"`, `"Bearer "` gives `""`, `"Bearer a b"` gives `"a"`. */
  lemma VerifyTokenExamples()
    ensures VerifyToken(Some("Bearer abc")) == Ok("abc")
    ensures VerifyToken(Some("Bearer ")) == Ok("")
    ensures VerifyToken(Some("Bearer a b")) == Ok("a")
  {
    BearerAbc();
    BearerEmpty();
    BearerAB();
  }

  lemma BearerAbc()
    ensures VerifyToken(Some("Bearer abc")) == Ok("abc")
  {
    assert "Bearer abc" == BearerPrefix + "abc";
    WordAfterBearer("Bearer abc", "abc");
  }

  lemma BearerEmpty()
    ensures VerifyToken(Some("Bearer ")) == Ok("")
  {
    assert "Bearer " == BearerPrefix + "";
    WordAfterBearer("Bearer ", "");
  }

  lemma BearerAB()
    ensures VerifyToken(Some("Bearer a b")) == Ok("a")
  {
    var p := BearerPrefix + "a" + " ";
    assert "Bearer a b" == p + "b";
    assert (p + "b")[..|p|] == p;
    WordAfterBearer("Bearer a b", "a");
  }

  /** When the prefix is followed by the space-free `w` and then a space or the end, the token part is `w`. */
  lemma WordAfterBearer(token: string, w: string)
    requires token == BearerPrefix + w || StartsWith(token, BearerPrefix + w + " ")
    requires forall i :: 0 <= i < |w| ==> w[i] != ' '
    ensures VerifyToken(Some(token)) == Ok(w)
  {
    assert StartsWith(token, BearerPrefix) by {
      assert token[..|BearerPrefix|] == (BearerPrefix + w)[..|BearerPrefix|];
    }
    var rest := token[|BearerPrefix|..];
    var u := VerifyToken(Some(token)).value;
    assert u == UpTo(rest, " ");
    MissingCharNotContained(w, " ", 0);
    if token == BearerPrefix + w {
      assert rest == w;
      NoSpace(w);
    } else {
      var q := BearerPrefix + w + " ";
      assert token[..|q|] == q;
      assert rest[..|w| + 1] == token[|BearerPrefix|..|q|] == token[..|q|][|BearerPrefix|..] == q[|BearerPrefix|..] == w + " ";
      UpToOfWordThenSep(rest, w, " ");
    }
  }

  /** Values without the exact prefix are rejected: wrong case, no trailing space, empty, missing. */
  lemma VerifyTokenRejects()
    ensures VerifyToken(Some("bearer abc")).Err?
    ensures VerifyToken(Some("Bearer")).Err?
    ensures VerifyToken(Some("")).Err? && VerifyToken(None).Err?
  {
    assert "bearer abc"[0] != BearerPrefix[0];
  }

  /** A text of non-space characters is its own `UpTo(·, " ")`. */
  lemma NoSpace(s: string)
    requires forall i :: 0 <= i < |s| ==> s[i] != ' '
    ensures UpTo(s, " ") == s
  {
    MissingCharNotContained(s, " ", 0);
  }
}
