/** The domain entities the services and controllers pass around. */
module Entities {
  import opened Wrappers
  import opened Calendar

  /** An expense; `id` is null until the database has assigned one. */
  datatype Expense = Expense(
    id: Option<int>,
    userId: Option<int>,
    date: Date,
    category: string,
    amountCents: int,
    description: string)

  /** A user account; `id` is null until the database has assigned one. */
  datatype User = User(id: Option<int>, username: string, passwordHash: string, createdAt: Date)
}
