/** The rank threshold of a learner: how many of the most frequent words
    of the language the learner is assumed to know. */
module Threshold {
  import opened Wrappers

  /** Shown to native English speakers outside the modelled age range
      (the source's wording, misspelling included). */
  const EnglishAgeMessage: string :=
    "Results will only be plausible for school age learners. The results are linearly extraoplated from ages 6-11, so take them with a pinch of salt outside that range."

  /** Shown to native speakers of any other language outside the modelled
      age range. */
  const GermanAgeMessage: string :=
    "Die Ergebnisse sind nur für Lernende im Alter von 6-24 Jahren plausibel. Die Ergebnisse werden nach einem Modell von Segbers und Schroeder im Alter von 6,8-22,4 Jahren quadratisch extrapoliert."

  /** The pair the calculator returns: a threshold, which keeps its initial
      0 when no formula applies, and an optional error message. */
  datatype Calculation = Calculation(threshold: real, error: Option<string>)

  /** The open age interval in which a native speaker's formula is used:
      4 < age < 18 for English, 6 < age < 25 for every other language. */
  predicate AgeInRange(lang: string, age: int) {
    if lang == "en" then 4 < age < 18 else 6 < age < 25
  }

  /** The diagnostic for a native speaker of `lang` whose age is out of range. */
  function AgeMessage(lang: string): string {
    if lang == "en" then EnglishAgeMessage else GermanAgeMessage
  }

  /** Vocabulary size one standard deviation below the mean of an English
      native speaker of the given age (a linear model). */
  function EnglishVocabulary(age: int): (r: int)
    ensures r > 0 <==> age >= 6
  {
    2975 * age - 15954
  }

  /** Vocabulary of a German native speaker one standard deviation below
      the mean: the mean quadratic minus the standard-deviation quadratic,
      evaluated exactly. */
  function GermanVocabulary(age: int): (r: real)
    ensures 100.0 * r == (-1879 * age * age + 403900 * age - 2487900) as real
    ensures 6 < age < 25 ==> r > 0.0
  {
    var a := age as real;
    var v := (-54.59 * a * a + 6033.0 * a - 33938.0) - (-35.8 * a * a + 1994.0 * a - 9059.0);
    assert 100.0 * v == (-1879 * age * age + 403900 * age - 2487900) as real;
    assert 6 < age < 25 ==> -1879 * age * age + 403900 * age - 2487900 > 0 by {
      if 6 < age < 25 {
        assert age * age <= 24 * age;
        assert -1879 * age * age + 403900 * age - 2487900 >= 358804 * age - 2487900 > 0;
      }
    }
    v
  }

  /** `threshold_calculator(lang, age, native, ger_level)`. An error is
      reported exactly for a native speaker whose age lies outside the
      language's interval; it is then the language's fixed message and the
      threshold is the initial 0. */
  function ThresholdCalculator(lang: string, age: int, native: bool, gerLevel: int): (r: Calculation)
    ensures r.error.Some? <==> native && !AgeInRange(lang, age)
    ensures r.error.Some? ==> r.threshold == 0.0 && r.error.value == AgeMessage(lang)
  {
    if !native then
      Calculation(gerLevel as real, None)
    else if lang == "en" then
      if 4 < age && age < 18 then Calculation(EnglishVocabulary(age) as real, None)
      else Calculation(0.0, Some(EnglishAgeMessage))
    else
      if 6 < age && age < 25 then Calculation(GermanVocabulary(age), None)
      else Calculation(0.0, Some(GermanAgeMessage))
  }

  /** A non-native learner's level is the threshold, whatever the language
      and age, and never causes an error. */
  lemma NonNativeUsesLevel(lang: string, age: int, gerLevel: int)
    ensures ThresholdCalculator(lang, age, false, gerLevel) == Calculation(gerLevel as real, None)
  {
  }

  /** Native English, 4 < age < 18: the linear model, no error. */
  lemma EnglishThreshold(age: int, gerLevel: int)
    requires 4 < age < 18
    ensures ThresholdCalculator("en", age, true, gerLevel) == Calculation((2975 * age - 15954) as real, None)
  {
  }

  /** Native English outside 4 < age < 18: the English message, threshold 0. */
  lemma EnglishOutOfRange(age: int, gerLevel: int)
    requires age <= 4 || 18 <= age
    ensures ThresholdCalculator("en", age, true, gerLevel) == Calculation(0.0, Some(EnglishAgeMessage))
  {
  }

  /** The German formula is one quadratic: -18.79 a^2 + 4039 a - 24879. */
  lemma GermanVocabularySimplified(age: int)
    ensures GermanVocabulary(age) == -18.79 * (age * age) as real + 4039.0 * age as real - 24879.0
    ensures 100.0 * GermanVocabulary(age) == (-1879 * age * age + 403900 * age - 2487900) as real
  {
  }

  /** Any language other than "en", native, 6 < age < 25: the simplified
      quadratic, no error. */
  lemma GermanThreshold(lang: string, age: int, gerLevel: int)
    requires lang != "en" && 6 < age < 25
    ensures ThresholdCalculator(lang, age, true, gerLevel)
         == Calculation(-18.79 * (age * age) as real + 4039.0 * age as real - 24879.0, None)
  {
    GermanVocabularySimplified(age);
  }

  /** Any language other than "en", native, age outside 6 < age < 25: the
      German message, threshold 0. */
  lemma GermanOutOfRange(lang: string, age: int, gerLevel: int)
    requires lang != "en" && (age <= 6 || 25 <= age)
    ensures ThresholdCalculator(lang, age, true, gerLevel) == Calculation(0.0, Some(GermanAgeMessage))
  {
  }

  /** Worked values: English age 10 gives 13796, English age 5 gives a
      negative threshold, German age 12 gives 20883.24, a non-native level
      of 500 gives 500. */
  lemma ThresholdExamples()
    ensures ThresholdCalculator("en", 10, true, 0) == Calculation(13796.0, None)
    ensures ThresholdCalculator("en", 5, true, 0) == Calculation(-1079.0, None)
    ensures ThresholdCalculator("de", 12, true, 0) == Calculation(20883.24, None)
    ensures ThresholdCalculator("de", 30, false, 500) == Calculation(500.0, None)
  {
  }
}
