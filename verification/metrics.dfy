/** The metric vocabulary (src/finvet/config/metrics.py) and the XBRL concepts that carry it. */
module Metrics {
  import opened Wrappers

  /** XBRL concept names, each spelled as in the taxonomy, and any other. */
  datatype Concept =
    | RevenueFromContractWithCustomerExcludingAssessedTax | Revenues | SalesRevenueNet | SalesRevenueGoodsNet
    | CostOfRevenue | CostOfGoodsAndServicesSold | GrossProfit | OperatingIncomeLoss | NetIncomeLoss | ProfitLoss
    | EarningsPerShareBasic | EarningsPerShareDiluted | ResearchAndDevelopmentExpense | InterestExpense
    | Assets | Liabilities | StockholdersEquity
    | StockholdersEquityIncludingPortionAttributableToNoncontrollingInterest
    | LongTermDebt | LongTermDebtNoncurrent | NetCashProvidedByUsedInOperatingActivities
    | PaymentsToAcquirePropertyPlantAndEquipment
    | OtherConcept(name: string)

  datatype XbrlMetric =
    | Revenue | CostOfSales | Gross | OperatingIncome | NetIncome | Eps | DilutedEps | ResearchAndDevelopment
    | Interest | TotalAssets | TotalLiabilities | ShareholdersEquity | TotalDebt | OperatingCashFlow | Capex

  /** The fields a quote answers with, and those only the untimed overview has. */
  datatype MarketMetric =
    | ClosingPrice | OpeningPrice | IntradayHigh | IntradayLow | PriceChangeAbsolute | PriceChangePercent
    | Volume | MarketCap | PeRatio | DividendYield | High52Week | Low52Week

  /** No name is in two of the program's metric tables, so one type holds them side by side. */
  datatype Metric = Xbrl(xbrl: XbrlMetric) | Market(market: MarketMetric) | FineAmount | SettlementAmount | OtherMetric(name: string)
  {
    /** CORROBORATION_METRICS. */
    predicate Penalty() {
      FineAmount? || SettlementAmount?
    }
  }

  /** METRIC_TO_CONCEPTS. */
  predicate Carries(c: Concept, m: XbrlMetric) {
    match m
    case Revenue => c.RevenueFromContractWithCustomerExcludingAssessedTax? || c.Revenues? || c.SalesRevenueNet? || c.SalesRevenueGoodsNet?
    case CostOfSales => c.CostOfRevenue? || c.CostOfGoodsAndServicesSold?
    case Gross => c.GrossProfit?
    case OperatingIncome => c.OperatingIncomeLoss?
    case NetIncome => c.NetIncomeLoss? || c.ProfitLoss?
    case Eps => c.EarningsPerShareBasic?
    case DilutedEps => c.EarningsPerShareDiluted?
    case ResearchAndDevelopment => c.ResearchAndDevelopmentExpense?
    case Interest => c.InterestExpense?
    case TotalAssets => c.Assets?
    case TotalLiabilities => c.Liabilities?
    case ShareholdersEquity => c.StockholdersEquity? || c.StockholdersEquityIncludingPortionAttributableToNoncontrollingInterest?
    case TotalDebt => c.LongTermDebt? || c.LongTermDebtNoncurrent?
    case OperatingCashFlow => c.NetCashProvidedByUsedInOperatingActivities?
    case Capex => c.PaymentsToAcquirePropertyPlantAndEquipment?
  }

  /** The table read from the other side: what a concept is a figure of. */
  function MetricOf(c: Concept): Option<XbrlMetric> {
    match c
    case RevenueFromContractWithCustomerExcludingAssessedTax | Revenues | SalesRevenueNet | SalesRevenueGoodsNet => Some(Revenue)
    case CostOfRevenue | CostOfGoodsAndServicesSold => Some(CostOfSales)
    case GrossProfit => Some(Gross)
    case OperatingIncomeLoss => Some(OperatingIncome)
    case NetIncomeLoss | ProfitLoss => Some(NetIncome)
    case EarningsPerShareBasic => Some(Eps)
    case EarningsPerShareDiluted => Some(DilutedEps)
    case ResearchAndDevelopmentExpense => Some(ResearchAndDevelopment)
    case InterestExpense => Some(Interest)
    case Assets => Some(TotalAssets)
    case Liabilities => Some(TotalLiabilities)
    case StockholdersEquity | StockholdersEquityIncludingPortionAttributableToNoncontrollingInterest => Some(ShareholdersEquity)
    case LongTermDebt | LongTermDebtNoncurrent => Some(TotalDebt)
    case NetCashProvidedByUsedInOperatingActivities => Some(OperatingCashFlow)
    case PaymentsToAcquirePropertyPlantAndEquipment => Some(Capex)
    case OtherConcept(_) => None
  }

  /** Every concept of the table carries one metric, so a statement line answers at most one. */
  lemma CarriesOneMetric(c: Concept, m: XbrlMetric)
    ensures Carries(c, m) <==> MetricOf(c) == Some(m)
  {
  }
}
