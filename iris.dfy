/** The simulated iris check of server.js: a fixed list of accepted sample
    identifiers and the `includes` membership test over it. */
module Iris {

  /** `irisDataset`, in its declared order. */
  const IrisDataset: seq<string> := [
    "iris_sample_01",
    "iris_sample_02",
    "iris_sample_03",
    "iris_sample_04",
    "iris_sample_05",
    "iris_sample_06",
    "iris_sample_07",
    "iris_sample_08",
    "iris_sample_09",
    "iris_sample_10"
  ]

  /** `Array.prototype.includes` on strings: a front-to-back scan with strict
      string equality. */
  function Includes(dataset: seq<string>, h: string): (found: bool)
    ensures found <==> h in dataset
  {
    if dataset == [] then false
    else dataset[0] == h || Includes(dataset[1..], h)
  }

  /** `irisDataset.includes(irisHash)`. */
  predicate IrisMatches(h: string) {
    Includes(IrisDataset, h)
  }

  /** A sample outside the dataset, such as "unknown_sample", is refused. */
  lemma UnknownSampleRefused()
    ensures !IrisMatches("unknown_sample")
  {
  }
}
