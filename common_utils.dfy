/** CommonUtils: the camelCase / snake_case conversions the library uses to turn field names
    into column names and back. Character classes are ASCII. */
module CommonUtils {
  import opened Wrappers
  import opened Text

  /** What one character becomes in camelCaseToUnderscore. */
  function SnakeChar(c: char): string
  {
    if IsUpper(c) then ['_', ToLowerChar(c)] else [c]
  }

  /** The character-by-character conversion of camelCaseToUnderscore, without its guard. */
  function Snake(s: string): string
  {
    if |s| == 0 then "" else Snake(s[..|s| - 1]) + SnakeChar(s[|s| - 1])
  }

  function CountUpper(s: string): nat
  {
    if |s| == 0 then 0 else CountUpper(s[..|s| - 1]) + (if IsUpper(s[|s| - 1]) then 1 else 0)
  }

  /** camelCaseToUnderscore on non-null text: text without a visible character is returned
      as it is, anything else converted. */
  function ToUnderscore(s: string): (r: string)
    ensures !HasText(s) ==> r == s
    ensures HasText(s) ==> |r| == |s| + CountUpper(s)
    ensures HasText(s) ==> forall i :: 0 <= i < |r| ==> !IsUpper(r[i])
  {
    SnakeLength(s);
    SnakeHasNoUpper(s);
    if !HasText(s) then s else Snake(s)
  }

  lemma {:induction false} SnakeConcat(a: string, b: string)
    ensures Snake(a + b) == Snake(a) + Snake(b)
    decreases |b|
  {
    if |b| == 0 {
      assert a + b == a;
    } else {
      assert (a + b)[..|a + b| - 1] == a + b[..|b| - 1];
      SnakeConcat(a, b[..|b| - 1]);
    }
  }

  /** Each upper-case letter grows by one character, the underscore in front of it. */
  lemma {:induction false} SnakeLength(s: string)
    ensures |Snake(s)| == |s| + CountUpper(s)
  {
    if |s| > 0 {
      SnakeLength(s[..|s| - 1]);
    }
  }

  /** The converted text holds no upper-case letter. */
  lemma {:induction false} SnakeHasNoUpper(s: string)
    ensures forall i :: 0 <= i < |Snake(s)| ==> !IsUpper(Snake(s)[i])
  {
    if |s| > 0 {
      SnakeHasNoUpper(s[..|s| - 1]);
    }
  }

  /** camelCaseToUnderscore's loop. */
  method CamelCaseToUnderscore(str: string) returns (r: string)
    ensures r == ToUnderscore(str)
  {
    if !HasText(str) {
      return str;
    }
    var sb := "";
    var i := 0;
    while i < |str|
      invariant 0 <= i <= |str|
      invariant sb == Snake(str[..i])
    {
      assert str[..i + 1][..i] == str[..i];
      var c := str[i];
      if IsUpper(c) {
        sb := sb + "_";
        sb := sb + [ToLowerChar(c)];
      } else {
        sb := sb + [c];
      }
      i := i + 1;
    }
    assert str[..i] == str;
    r := sb;
  }

  /** Every '_' has a character after it to upper-case, reading the text from the front as
      underscoreToCamelCase does (the character after a '_' is consumed with it). */
  predicate PairsClosed(s: string)
    decreases |s|
  {
    if |s| == 0 then true
    else if s[0] == '_' then |s| >= 2 && PairsClosed(s[2..])
    else PairsClosed(s[1..])
  }

  /** The character-by-character conversion of underscoreToCamelCase: "_c" becomes the
      upper-case c, everything else is copied. */
  function Camel(s: string): (r: string)
    requires PairsClosed(s)
    ensures |r| <= |s|
    ensures |s| > 0 ==> |r| > 0
    ensures (forall i :: 0 <= i < |s| ==> s[i] != '_') ==> r == s
    decreases |s|
  {
    if |s| == 0 then ""
    else if s[0] == '_' then [ToUpperChar(s[1])] + Camel(s[2..])
    else [s[0]] + Camel(s[1..])
  }

  /** underscoreToCamelCase on non-null text. A trailing unpaired '_' makes charAt(i + 1)
      throw StringIndexOutOfBoundsException. */
  function FromUnderscore(s: string): (r: Result<string>)
    ensures r.Failure? <==> HasText(s) && !PairsClosed(s)
  {
    if !HasText(s) then Success(s)
    else if PairsClosed(s) then Success(Camel(s))
    else Failure("String index out of range")
  }

  /** One step of the conversion from position i. */
  lemma CamelStep(s: string, i: nat)
    requires i < |s|
    ensures s[i] == '_' ==> (PairsClosed(s[i..]) <==> i + 1 < |s| && PairsClosed(s[i + 2..]))
    ensures s[i] == '_' && PairsClosed(s[i..]) ==> Camel(s[i..]) == [ToUpperChar(s[i + 1])] + Camel(s[i + 2..])
    ensures s[i] != '_' ==> (PairsClosed(s[i..]) <==> PairsClosed(s[i + 1..]))
    ensures s[i] != '_' && PairsClosed(s[i..]) ==> Camel(s[i..]) == [s[i]] + Camel(s[i + 1..])
  {
    if s[i] == '_' {
      if i + 1 < |s| {
        assert s[i..][2..] == s[i + 2..];
      }
    } else {
      assert s[i..][1..] == s[i + 1..];
    }
  }

  /** underscoreToCamelCase's loop, with its in-loop `i++`. */
  method UnderscoreToCamelCase(str: string) returns (r: Result<string>)
    ensures r == FromUnderscore(str)
  {
    if !HasText(str) {
      return Success(str);
    }
    var sb := "";
    var i := 0;
    while i < |str|
      invariant 0 <= i <= |str|
      invariant PairsClosed(str) <==> PairsClosed(str[i..])
      invariant PairsClosed(str) ==> Camel(str) == sb + Camel(str[i..])
    {
      var c := str[i];
      CamelStep(str, i);
      if c == '_' {
        if i + 1 >= |str| {
          r := Failure("String index out of range");
          return;
        }
        assert PairsClosed(str) ==> Camel(str) == (sb + [ToUpperChar(str[i + 1])]) + Camel(str[i + 2..]);
        sb := sb + [ToUpperChar(str[i + 1])];
        i := i + 1;
      } else {
        assert PairsClosed(str) ==> Camel(str) == (sb + [c]) + Camel(str[i + 1..]);
        sb := sb + [c];
      }
      i := i + 1;
    }
    assert str[i..] == [];
    assert sb + "" == sb;
    r := Success(sb);
  }

  /** A lower-case snake name: lower-case letters, digits and underscores, each underscore
      followed by a lower-case letter. Table and column names such as "tenant_id" are. */
  predicate LowerSnakeName(s: string)
  {
    && (forall i :: 0 <= i < |s| ==> IsLower(s[i]) || IsDigit(s[i]) || s[i] == '_')
    && (forall i :: 0 <= i < |s| && s[i] == '_' ==> i + 1 < |s| && IsLower(s[i + 1]))
  }

  lemma SnakeCons(x: char, t: string)
    ensures Snake([x] + t) == SnakeChar(x) + Snake(t)
  {
    SnakeConcat([x], t);
    var s := [x];
    assert s[..0] == [];
    assert Snake(s) == Snake(s[..0]) + SnakeChar(s[0]);
  }

  /** A suffix of a lower-case snake name that does not start right after an underscore is
      one too. */
  lemma LowerSnakeSuffix(c: string, k: nat)
    requires LowerSnakeName(c) && k <= |c|
    requires k == 0 || c[k - 1] != '_'
    ensures LowerSnakeName(c[k..])
  {
    var rest := c[k..];
    forall i | 0 <= i < |rest| && rest[i] == '_'
      ensures i + 1 < |rest| && IsLower(rest[i + 1])
    {
      assert c[k + i] == '_';
    }
  }

  lemma {:induction false} SnakeOfCamel(c: string)
    requires LowerSnakeName(c)
    ensures PairsClosed(c)
    ensures Snake(Camel(c)) == c
    decreases |c|
  {
    if |c| > 0 {
      if c[0] == '_' {
        LowerSnakeSuffix(c, 2);
        SnakeOfCamel(c[2..]);
        SnakeCons(ToUpperChar(c[1]), Camel(c[2..]));
        assert c == [c[0], c[1]] + c[2..];
      } else {
        LowerSnakeSuffix(c, 1);
        SnakeOfCamel(c[1..]);
        SnakeCons(c[0], Camel(c[1..]));
        assert c == [c[0]] + c[1..];
      }
    }
  }

  /** A non-empty lower-case snake name converts to text starting with a letter or digit. */
  lemma CamelStartsVisible(c: string)
    requires LowerSnakeName(c) && PairsClosed(c) && |c| > 0
    ensures |Camel(c)| > 0 && !IsWhitespace(Camel(c)[0])
  {
  }

  /** For a lower-case snake name, converting to camelCase and back gives the name again;
      the DAO relies on this to find the entity field of the tenant column. */
  lemma UnderscoreRoundTrip(c: string)
    requires LowerSnakeName(c)
    ensures FromUnderscore(c).Success?
    ensures ToUnderscore(FromUnderscore(c).value) == c
  {
    SnakeOfCamel(c);
    if HasText(c) {
      CamelStartsVisible(c);
    }
  }

  /** Converting back undoes one converted character in front of converted text. */
  lemma CamelOfSnakeChar(x: char, t: string)
    requires x != '_' && PairsClosed(t)
    ensures PairsClosed(SnakeChar(x) + t)
    ensures Camel(SnakeChar(x) + t) == [x] + Camel(t)
  {
    var u := SnakeChar(x) + t;
    if IsUpper(x) {
      assert u[0] == '_' && u[1] == ToLowerChar(x) && u[2..] == t;
    } else {
      assert u[0] == x && u[1..] == t;
    }
  }

  lemma {:induction false} CamelOfSnake(s: string)
    requires forall i :: 0 <= i < |s| ==> s[i] != '_'
    ensures PairsClosed(Snake(s))
    ensures Camel(Snake(s)) == s
    decreases |s|
  {
    if |s| > 0 {
      var rest := s[1..];
      CamelOfSnake(rest);
      SnakeCons(s[0], rest);
      assert s == [s[0]] + rest;
      CamelOfSnakeChar(s[0], Snake(rest));
    }
  }

  /** Converting keeps a visible character visible. */
  lemma {:induction false} SnakeVisible(s: string)
    requires HasText(s)
    ensures HasText(Snake(s))
  {
    var last := s[|s| - 1];
    var prefix := s[..|s| - 1];
    var t := Snake(s);
    assert t == Snake(prefix) + SnakeChar(last);
    if !IsWhitespace(last) {
      assert t[|t| - 1] == SnakeChar(last)[|SnakeChar(last)| - 1];
      assert !IsWhitespace(t[|t| - 1]);
    } else {
      var i :| 0 <= i < |s| && !IsWhitespace(s[i]);
      assert prefix[i] == s[i];
      SnakeVisible(prefix);
      var j :| 0 <= j < |Snake(prefix)| && !IsWhitespace(Snake(prefix)[j]);
      assert t[j] == Snake(prefix)[j];
    }
  }

  /** For a camelCase name without underscores, converting to snake_case and back gives the
      name again. */
  lemma CamelRoundTrip(s: string)
    requires forall i :: 0 <= i < |s| ==> s[i] != '_'
    ensures FromUnderscore(ToUnderscore(s)) == Success(s)
  {
    CamelOfSnake(s);
    if HasText(s) {
      SnakeVisible(s);
    }
  }
}
