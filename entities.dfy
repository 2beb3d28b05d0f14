/** The expense record and the small value types it is made of. */
module Entities {
  import opened Results

  /** A calendar month, January = 1 ... December = 12. */
  type MonthNumber = m: int | 1 <= m <= 12 witness 1

  /** A member of the expense category enumeration, identified by the name it prints as. */
  datatype Category = Category(name: string)

  /** The part of a DateTime the core looks at. */
  datatype Date = Date(year: int, month: MonthNumber, day: int)

  /** An expense row; `Id` is the table key, `Description` may be null. */
  datatype Expense = Expense(
    id: int,
    description: Option<string>,
    category: Category,
    amount: real,
    date: Date)

  /** `char.IsWhiteSpace`: the Unicode White_Space characters of the UTF-16 range. */
  predicate IsWhiteSpace(c: char) {
    || '\U{9}' <= c <= '\U{D}'
    || c == ' '
    || c == '\U{85}'
    || c == '\U{A0}'
    || c == '\U{1680}'
    || '\U{2000}' <= c <= '\U{200A}'
    || c == '\U{2028}'
    || c == '\U{2029}'
    || c == '\U{202F}'
    || c == '\U{205F}'
    || c == '\U{3000}'
  }

  /** `string.IsNullOrWhiteSpace`: null, empty, or nothing but white space. */
  predicate IsNullOrWhiteSpace(s: Option<string>) {
    match s
    case None => true
    case Some(t) => forall i :: 0 <= i < |t| ==> IsWhiteSpace(t[i])
  }
}
