/**
 * `retrieve_industry_benchmarks`: the fixed industry benchmarks the FX risk
 * prompt compares a company against. `5_openAI_structured.py` gives each of
 * five benchmarks a description and details; `5_openAI.py` keeps only the
 * first two descriptions. A Python dictionary keeps its insertion order, so
 * each table is the sequence of its entries in that order.
 */
module Benchmarks {

  /** The inner dictionary of the structured table, with its two keys `description` and `details`. */
  datatype Benchmark = Benchmark(description: string, details: string)

  const HedgingRatio := "Standard hedging ratio of 80%"
  const Diversification := "Diversification into multiple currencies"

  /** The key of the `n`th benchmark: `Benchmark_<n>`, for `n` from 1 to 9. */
  function Key(n: nat): string
    requires 1 <= n <= 9
  {
    "Benchmark_" + [('0' as int + n) as char]
  }

  /** The structured benchmarks in insertion order. */
  function StructuredBenchmarks(): seq<(string, Benchmark)> {
    [ (Key(1), Benchmark(HedgingRatio,
        "In FX risk management, " + "this benchmark refers to "
        + "hedging 80% of " + "anticipated foreign "
        + "currency exposure " + "using financial "
        + "instruments like " + "forwards or options "
        + "to reduce potential " + "losses from currency "
        + "fluctuations.")),
      (Key(2), Benchmark(Diversification,
        "This benchmark " + "encourages diversification "
        + "of assets or revenue " + "streams across multiple "
        + "currencies to reduce " + "dependency on any "
        + "single currency's " + "fluctuations.")),
      (Key(3), Benchmark("Value-at-Risk (VaR) under 5%",
        "A common benchmark " + "in FX risk management "
        + "where the company\U{2019}s " + "potential loss from "
        + "currency volatility " + "should not exceed 5% "
        + "of the portfolio " + "value, based on "
        + "statistical analysis.")),
      (Key(4), Benchmark("Use of natural hedging",
        "Natural hedging " + "involves structuring "
        + "operations (e.g., " + "sourcing and selling "
        + "in the same currency) " + "to minimize FX exposure "
        + "without the need for " + "financial instruments.")),
      (Key(5), Benchmark("FX exposure monitoring every quarter",
        "Regular monitoring " + "and reporting of FX "
        + "exposure to ensure " + "that management can "
        + "respond quickly to " + "currency volatility. "
        + "A quarterly review " + "is the industry standard."))
    ]
  }

  /** The plain benchmarks in insertion order: each key maps straight to a description. */
  function PlainBenchmarks(): seq<(string, string)> {
    [(Key(1), HedgingRatio), (Key(2), Diversification)]
  }

  /**
   * The structured table numbers its five benchmarks `Benchmark_1` to
   * `Benchmark_5` in order, and no description or details is empty.
   */
  lemma StructuredShape()
    ensures |StructuredBenchmarks()| == 5
    ensures forall i :: 0 <= i < 5 ==> StructuredBenchmarks()[i].0 == Key(i + 1)
    ensures forall i :: 0 <= i < 5 ==>
      StructuredBenchmarks()[i].1.description != [] && StructuredBenchmarks()[i].1.details != []
  {
  }

  /** The plain table is the structured one cut down to the descriptions of its first two benchmarks. */
  lemma PlainIsStructuredDescriptions()
    ensures |PlainBenchmarks()| == 2
    ensures forall i :: 0 <= i < 2 ==>
      PlainBenchmarks()[i] == (StructuredBenchmarks()[i].0, StructuredBenchmarks()[i].1.description)
  {
  }

  /**
   * No key appears twice in either table, in insertion order, so building
   * either dictionary loses no entry to a later one with the same key.
   */
  lemma TableKeysDistinct()
    ensures forall i, j :: 0 <= i < j < |StructuredBenchmarks()| ==>
      StructuredBenchmarks()[i].0 != StructuredBenchmarks()[j].0
    ensures forall i, j :: 0 <= i < j < |PlainBenchmarks()| ==>
      PlainBenchmarks()[i].0 != PlainBenchmarks()[j].0
  {
    StructuredShape();
    PlainIsStructuredDescriptions();
    forall i, j | 0 <= i < j < |StructuredBenchmarks()|
      ensures StructuredBenchmarks()[i].0 != StructuredBenchmarks()[j].0
    {
      assert Key(i + 1)[10] != Key(j + 1)[10];
    }
  }
}
