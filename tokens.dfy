/** Tokens: the kinds the lexer emits, with the literal payload of numbers. */
module Tokens {
  import opened Decimal

  /** `Int` carries the decimal value of the scanned digits; `Float` keeps the scanned text
      symbolically, as the digits before and after its one dot. */
  datatype Token =
    | Int(value: nat)
    | Float(whole: string, fraction: string)
    | Plus | Minus | Mul | Div
    | LParen | RParen

  predicate IsNumber(t: Token) {
    t.Int? || t.Float?
  }

  /** The operators of the lower precedence tier, `+` and `-`. */
  predicate IsSumOp(t: Token) {
    t.Plus? || t.Minus?
  }

  /** The operators of the higher precedence tier, `*` and `/`. */
  predicate IsProductOp(t: Token) {
    t.Mul? || t.Div?
  }

  predicate IsOperator(t: Token) {
    IsSumOp(t) || IsProductOp(t)
  }

  /** A float token as the lexer builds it: at least one digit before the dot, only digits after it. */
  predicate WellFormedToken(t: Token) {
    t.Float? ==> |t.whole| > 0 && AllDigits(t.whole) && AllDigits(t.fraction)
  }
}
