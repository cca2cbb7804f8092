/** The string enumerations of the request models, as closed datatypes. */
module Enums {
  datatype PaymentType = Annuity | Differentiated

  datatype CapitalizationType = Daily | Monthly | Quarterly | Yearly | NoCapitalization

  datatype ComparisonType = MortgageComparison | SavingsComparison | CreditComparison | GoalComparison
}
