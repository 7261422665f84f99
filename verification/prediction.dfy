/** The prediction page's feature row: the widget values copied into the
    record the fitted transformer expects, with the year re-based to the
    dataset's first year. The transformer and the classifier themselves are
    opaque artifacts and are not modelled. */
module Prediction {

  /** The dataset's first year, which the year feature counts from, and the
      upper end of the year slider. */
  const FirstYear: int := 1880
  const LastYear: int := 2024

  /** The prediction form's values. The rolling average is a float the form
      only passes on, so its type is a parameter. */
  datatype FormInput<F> = FormInput(name: string, year: int, isFamous: int, genderBinary: int,
                                    rollingAverageGenderRatio5Years: F, vowelCount: int,
                                    endsWithSpecifiedLetters: int)

  /** The one-row feature frame, in the transformer's column order. */
  datatype Features<F> = Features(year: int, isFamous: int, genderBinary: int,
                                  rollingAverageGenderRatio5Years: F, vowelCount: int,
                                  endsWithSpecifiedLetters: int)

  /** What the widgets can produce: a year from the slider, 0/1 selections
      and a vowel count from 0 to 10. */
  predicate InWidgetRanges<F>(w: FormInput<F>) {
    && FirstYear <= w.year <= LastYear
    && 0 <= w.isFamous <= 1
    && 0 <= w.genderBinary <= 1
    && 0 <= w.vowelCount <= 10
    && 0 <= w.endsWithSpecifiedLetters <= 1
  }

  /** The feature ranges the model sees: years 0 to 144 after re-basing. */
  predicate InFeatureRanges<F>(f: Features<F>) {
    && 0 <= f.year <= 144
    && 0 <= f.isFamous <= 1
    && 0 <= f.genderBinary <= 1
    && 0 <= f.vowelCount <= 10
    && 0 <= f.endsWithSpecifiedLetters <= 1
  }

  /** The feature row built from the form, and the name shown with the
      result. Widget values map into the model's ranges and nothing else
      does, because only the year is changed and that by a fixed shift. */
  function UserInputFeatures<F>(w: FormInput<F>): (out: (Features<F>, string))
    ensures InWidgetRanges(w) <==> InFeatureRanges(out.0)
    ensures out.1 == w.name
  {
    (Features(w.year - FirstYear, w.isFamous, w.genderBinary, w.rollingAverageGenderRatio5Years,
              w.vowelCount, w.endsWithSpecifiedLetters),
     w.name)
  }

  /** The form that yields a feature row and a name: the year shifted back. */
  function FormOf<F>(f: Features<F>, name: string): FormInput<F> {
    FormInput(name, f.year + FirstYear, f.isFamous, f.genderBinary,
              f.rollingAverageGenderRatio5Years, f.vowelCount, f.endsWithSpecifiedLetters)
  }

  /** Building the feature row loses nothing: the form is recovered from it,
      and every feature row comes from exactly one form. */
  lemma FeaturesRoundTrip<F>(w: FormInput<F>, f: Features<F>, name: string)
    ensures FormOf(UserInputFeatures(w).0, UserInputFeatures(w).1) == w
    ensures UserInputFeatures(FormOf(f, name)) == (f, name)
  {
  }
}
