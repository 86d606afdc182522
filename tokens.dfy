/**
 * Tokens, their types and the conversion of a token's text into a token
 * (src/scripting/tokenizing/tokentype.rs, token.rs, tokenerror.rs).
 */
module Tokens {
  import opened Wrappers

  datatype TokenType = LeftParenthesis | RightParenthesis | Identifier | Integer | FloatingPointNumber

  datatype Token =
    | LeftParenthesis
    | RightParenthesis
    | Identifier(name: string)
    | Integer(value: int)
    | FloatingPointNumber(number: real)

  /** The parse errors of the standard library are reduced to their kind. */
  datatype TokenizingError =
    | LeftParenthesisError
    | RightParenthesisError
    | IntegerError
    | FloatingPointNumberError
    | IncompleteToken

  const I64Min: int := -0x8000_0000_0000_0000
  const I64Max: int := 0x7fff_ffff_ffff_ffff

  predicate IsAsciiDigit(c: char)
  {
    '0' <= c <= '9'
  }

  predicate AllAsciiDigits(s: string)
  {
    forall i :: 0 <= i < |s| ==> IsAsciiDigit(s[i])
  }

  /** The value of a string of decimal digits. */
  function DigitsValue(s: string): nat
    requires AllAsciiDigits(s)
  {
    if s == [] then 0 else DigitsValue(s[..|s| - 1]) * 10 + (s[|s| - 1] as int - '0' as int)
  }

  /**
   * `str::parse::<i64>`: an optional '+' or '-', then at least one decimal
   * digit, and a value that fits in 64 bits.
   */
  function ParseI64(s: string): (r: Option<int>)
    ensures r.Some? ==> I64Min <= r.value <= I64Max
  {
    var negative := |s| > 0 && s[0] == '-';
    var digits := if |s| > 0 && (s[0] == '-' || s[0] == '+') then s[1..] else s;
    if digits == [] || !AllAsciiDigits(digits) then None
    else
      var v := if negative then -(DigitsValue(digits) as int) else DigitsValue(digits) as int;
      if I64Min <= v <= I64Max then Some(v) else None
  }

  /** The token type a token belongs to. */
  function TypeOf(token: Token): TokenType
  {
    match token
    case LeftParenthesis => TokenType.LeftParenthesis
    case RightParenthesis => TokenType.RightParenthesis
    case Identifier(_) => TokenType.Identifier
    case Integer(_) => TokenType.Integer
    case FloatingPointNumber(_) => TokenType.FloatingPointNumber
  }

  /**
   * `to_token`.  The float parser of the standard library is a parameter:
   * `parseFloat(s)` is the number `s` denotes, or None when it is rejected.
   */
  function ToToken(tt: TokenType, text: string, parseFloat: string -> Option<real>): (r: Result<Token, TokenizingError>)
    ensures r.Ok? ==> TypeOf(r.value) == tt
    ensures tt.LeftParenthesis? ==> (r.Ok? <==> text == "(")
    ensures tt.RightParenthesis? ==> (r.Ok? <==> text == ")")
    ensures tt.Integer? ==> (r.Ok? <==> ParseI64(text).Some?)
    ensures tt.FloatingPointNumber? ==> (r.Ok? <==> parseFloat(text).Some?)
    ensures r.Err? ==> r.error == ErrorOf(tt)
  {
    if tt.LeftParenthesis? then
      if text != "(" then Err(LeftParenthesisError) else Ok(Token.LeftParenthesis)
    else if tt.RightParenthesis? then
      if text != ")" then Err(RightParenthesisError) else Ok(Token.RightParenthesis)
    else if tt.Identifier? then
      Ok(Token.Identifier(text))
    else if tt.Integer? then
      match ParseI64(text)
      case None => Err(IntegerError)
      case Some(n) => Ok(Token.Integer(n))
    else
      match parseFloat(text)
      case None => Err(FloatingPointNumberError)
      case Some(x) => Ok(Token.FloatingPointNumber(x))
  }

  /** The error each token type reports. */
  function ErrorOf(tt: TokenType): TokenizingError
  {
    if tt.LeftParenthesis? then LeftParenthesisError
    else if tt.RightParenthesis? then RightParenthesisError
    else if tt.Integer? then IntegerError
    else if tt.FloatingPointNumber? then FloatingPointNumberError
    else IncompleteToken
  }

  // ---------------------------------------------------------------------
  // Spelling a token, the inverse of `to_token`

  function DigitChar(d: nat): char
    requires d < 10
  {
    ('0' as int + d) as char
  }

  /** The decimal digits of a natural number, without leading zeros. */
  function DecimalText(n: nat): (s: string)
    ensures s != [] && AllAsciiDigits(s)
  {
    if n < 10 then [DigitChar(n)] else DecimalText(n / 10) + [DigitChar(n % 10)]
  }

  /** How an integer is written: a '-' for negative numbers, then its digits. */
  function IntegerText(n: int): string
  {
    if n < 0 then "-" + DecimalText(-n) else DecimalText(n)
  }

  /** The text of a token; floats are left out because their text is not unique. */
  function Spelling(token: Token): string
    requires !token.FloatingPointNumber?
  {
    match token
    case LeftParenthesis => "("
    case RightParenthesis => ")"
    case Identifier(name) => name
    case Integer(n) => IntegerText(n)
  }

  lemma {:induction false} DecimalTextValue(n: nat)
    ensures DigitsValue(DecimalText(n)) == n
  {
    var s := DecimalText(n);
    if n >= 10 {
      DecimalTextValue(n / 10);
      assert s[..|s| - 1] == DecimalText(n / 10);
    }
  }

  /** Parsing the text of any 64-bit integer gives the integer back. */
  lemma ParseIntegerText(n: int)
    requires I64Min <= n <= I64Max
    ensures ParseI64(IntegerText(n)) == Some(n)
  {
    var digits := DecimalText(if n < 0 then -n else n);
    DecimalTextValue(if n < 0 then -n else n);
    ParseDigits(digits);
  }

  /** Converting the spelling of a token gives the token back. */
  lemma ToTokenSpelling(token: Token, parseFloat: string -> Option<real>)
    requires !token.FloatingPointNumber?
    requires token.Integer? ==> I64Min <= token.value <= I64Max
    ensures ToToken(TypeOf(token), Spelling(token), parseFloat) == Ok(token)
  {
    if token.Integer? {
      ParseIntegerText(token.value);
    }
  }

  /** Parsing a string of digits gives its value, or fails on overflow. */
  lemma ParseDigits(s: string)
    requires s != [] && AllAsciiDigits(s)
    ensures ParseI64(s) == if DigitsValue(s) <= I64Max then Some(DigitsValue(s) as int) else None
    ensures ParseI64("-" + s) == if DigitsValue(s) <= -I64Min then Some(-(DigitsValue(s) as int)) else None
  {
    assert s[0] != '-' && s[0] != '+';
    assert ("-" + s)[0] == '-' && ("-" + s)[1..] == s;
  }

  /** The texts the tests of tokenizer.rs read. */
  lemma ParseExamples()
    ensures ParseI64("1") == Some(1) && ParseI64("23") == Some(23) && ParseI64("456") == Some(456)
    ensures ParseI64("-10") == Some(-10)
  {
    ParseDigits("1");
    Parse23();
    Parse456();
    ParseMinus10();
  }

  lemma Parse23()
    ensures ParseI64("23") == Some(23)
  {
    ParseDigits("23");
    assert "23"[..1] == "2";
  }

  lemma Parse456()
    ensures ParseI64("456") == Some(456)
  {
    ParseDigits("456");
    assert "456"[..2] == "45" && "45"[..1] == "4";
  }

  lemma ParseMinus10()
    ensures ParseI64("-10") == Some(-10)
  {
    ParseDigits("10");
    assert "10"[..1] == "1";
    assert "-" + "10" == "-10";
  }

  lemma ParseRejectExamples()
    ensures ParseI64("-") == None && ParseI64("") == None && ParseI64("1x") == None
  {
    assert !IsAsciiDigit("1x"[1]);
  }
}
