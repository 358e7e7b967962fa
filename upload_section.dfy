/**
 * The upload form: its five state fields, the handlers that change them, the
 * submit guard, the disabled condition of the submit button, the year and
 * subject options and the three example presets
 * (web/src/app/coursekeeper/components/UploadSection.tsx).
 */
module UploadSection {
  import opened Wrappers
  import opened Decimal

  /** The five `<option>`s of the subject select. */
  const SubjectOptions: seq<string> :=
    ["Computer Vision", "Natural Language Processing", "Machine Learning", "Robotics", "Bioinformatics"]

  /** The year select: `Array.from({ length: 20 }, (_, i) => 2024 - i)`. */
  function YearOptions(): seq<int> {
    seq(20, i => 2024 - i)
  }

  /** Twenty years, from 2024 down to 2005, strictly descending, and no other year. */
  lemma YearOptionsSpec()
    ensures |YearOptions()| == 20
    ensures YearOptions()[0] == 2024 && YearOptions()[19] == 2005
    ensures forall i, j :: 0 <= i < j < |YearOptions()| ==> YearOptions()[i] > YearOptions()[j]
    ensures forall y :: y in YearOptions() <==> 2005 <= y <= 2024
  {
    var r := YearOptions();
    forall y | 2005 <= y <= 2024 ensures y in r {
      assert r[2024 - y] == y;
    }
  }

  /**
   * A year value the select can hold: the decimal text of one of its options,
   * the form `setYear(e.target.value)` stores.
   */
  predicate IsYearChoice(s: string) {
    var p := ParseInt(s);
    p.Some? && 2005 <= p.value <= 2024 && s == NatToString(p.value)
  }

  /** The text of every option is a year choice, and it parses back to that option. */
  lemma YearChoiceOfOption(y: int)
    requires y in YearOptions()
    ensures y >= 0 && IsYearChoice(NatToString(y)) && ParseInt(NatToString(y)) == Some(y)
  {
    YearOptionsSpec();
    ParseIntOfNatToString(y);
  }

  /** A JavaScript string that is truthy: present and non-empty. */
  predicate Truthy(s: Option<string>) {
    s.Some? && s.value != ""
  }

  /** `handleSubmit`'s guard `if (!email || !fileName) return` lets the submission through. */
  predicate GuardPasses(email: string, fileName: Option<string>) {
    email != "" && Truthy(fileName)
  }

  /** `disabled={!fileName || !email || isProcessing}`. */
  predicate SubmitDisabled(email: string, fileName: Option<string>, isProcessing: bool) {
    !Truthy(fileName) || email == "" || isProcessing
  }

  /**
   * The button is enabled exactly when the guard would pass and nothing is
   * being processed: the guard itself does not look at `isProcessing`.
   */
  lemma DisabledMatchesGuard(email: string, fileName: Option<string>, isProcessing: bool)
    ensures !SubmitDisabled(email, fileName, isProcessing) <==> GuardPasses(email, fileName) && !isProcessing
    ensures GuardPasses(email, fileName) && isProcessing ==> SubmitDisabled(email, fileName, isProcessing)
  {
  }

  /** The three example syllabi. */
  datatype Preset = CS231N | NLP | ML

  /** The triple an example button sets. */
  datatype PresetChoice = PresetChoice(fileName: string, subject: string, year: string)

  function PresetOf(p: Preset): PresetChoice {
    match p
    case CS231N => PresetChoice("CS231N-2008-Syllabus.pdf", "Computer Vision", "2008")
    case NLP => PresetChoice("NLP-2012-Syllabus.pdf", "Natural Language Processing", "2012")
    case ML => PresetChoice("ML-2015-Syllabus.pdf", "Machine Learning", "2015")
  }

  /** The text of a year of the 2000s, spelled out digit by digit. */
  lemma YearText(y: nat)
    requires 2000 <= y <= 2099
    ensures NatToString(y) == ['2', '0', DigitChar(y / 10 % 10), DigitChar(y % 10)]
  {
    assert NatToString(2) == ['2'];
    assert NatToString(20) == ['2', '0'];
    assert NatToString(y / 10) == ['2', '0', DigitChar(y / 10 % 10)];
  }

  /** Every preset names a subject and a year the selects offer, and a non-empty file. */
  lemma PresetsAreChoices(p: Preset)
    ensures PresetOf(p).subject in SubjectOptions
    ensures IsYearChoice(PresetOf(p).year)
    ensures PresetOf(p).fileName != ""
  {
    var y := match p case CS231N => 2008 case NLP => 2012 case ML => 2015;
    YearText(y);
    assert DigitChar(y / 10 % 10) == PresetOf(p).year[2];
    assert DigitChar(y % 10) == PresetOf(p).year[3];
    assert NatToString(y) == PresetOf(p).year;
    YearOptionsSpec();
    YearChoiceOfOption(y);
    assert SubjectOptions[match p case CS231N => 0 case NLP => 1 case ML => 2] == PresetOf(p).subject;
  }

  /** What a successful submit reports: `onComplete(email, parseInt(year), subject)`; a failed parse is `None`. */
  datatype Submission = Submission(email: string, year: Option<nat>, subject: string)

  class UploadForm {
    var email: string
    var year: string
    var subject: string
    var fileName: Option<string>
    var isProcessing: bool

    /** The selects only ever hold one of their options. */
    ghost predicate Valid()
      reads this
    {
      IsYearChoice(year) && subject in SubjectOptions
    }

    /** The form starts empty, on 2008 and Computer Vision, with no file and nothing processing. */
    constructor ()
      ensures email == "" && year == "2008" && subject == "Computer Vision"
      ensures fileName == None && !isProcessing
      ensures Valid()
    {
      email := "";
      year := "2008";
      subject := "Computer Vision";
      fileName := None;
      isProcessing := false;
      PresetsAreChoices(CS231N);
    }

    /** Typing in the email field. */
    method EditEmail(e: string)
      requires Valid()
      modifies this
      ensures Valid()
      ensures email == e
      ensures year == old(year) && subject == old(subject) && fileName == old(fileName) && isProcessing == old(isProcessing)
    {
      email := e;
    }

    /** Picking a subject from its select. */
    method ChooseSubject(s: string)
      requires Valid() && s in SubjectOptions
      modifies this
      ensures Valid()
      ensures subject == s
      ensures email == old(email) && year == old(year) && fileName == old(fileName) && isProcessing == old(isProcessing)
    {
      subject := s;
    }

    /** Picking a year from its select stores the option's text. */
    method ChooseYear(y: int)
      requires Valid() && y in YearOptions()
      modifies this
      ensures Valid()
      ensures y >= 0 && year == NatToString(y) && ParseInt(year) == Some(y)
      ensures email == old(email) && subject == old(subject) && fileName == old(fileName) && isProcessing == old(isProcessing)
    {
      YearChoiceOfOption(y);
      year := NatToString(y);
    }

    /**
     * `handleFileChange`: the name of the first chosen file, if there is one,
     * replaces the file name; an empty choice changes nothing.
     */
    method FileChange(chosen: Option<string>)
      requires Valid()
      modifies this
      ensures Valid()
      ensures fileName == (if chosen.Some? then chosen else old(fileName))
      ensures email == old(email) && year == old(year) && subject == old(subject) && isProcessing == old(isProcessing)
    {
      if chosen.Some? {
        fileName := chosen;
      }
    }

    /** An example button sets file name, subject and year together. */
    method ApplyPreset(p: Preset)
      requires Valid()
      modifies this
      ensures Valid()
      ensures fileName == Some(PresetOf(p).fileName) && subject == PresetOf(p).subject && year == PresetOf(p).year
      ensures email == old(email) && isProcessing == old(isProcessing)
    {
      PresetsAreChoices(p);
      var choice := PresetOf(p);
      fileName := Some(choice.fileName);
      subject := choice.subject;
      year := choice.year;
    }

    /**
     * `handleSubmit`: with an empty email or no file name nothing happens;
     * otherwise the form starts processing and reports its email, the parsed
     * year, which is always one of the offered years, and its subject.
     */
    method Submit() returns (report: Option<Submission>)
      requires Valid()
      modifies this
      ensures Valid()
      ensures report.Some? <==> GuardPasses(old(email), old(fileName))
      ensures report.None? ==> isProcessing == old(isProcessing)
      ensures report.Some? ==> isProcessing
      ensures report.Some? ==> report.value == Submission(email, ParseInt(year), subject)
      ensures report.Some? ==> report.value.year.Some? && 2005 <= report.value.year.value <= 2024
      ensures email == old(email) && year == old(year) && subject == old(subject) && fileName == old(fileName)
    {
      if !GuardPasses(email, fileName) {
        return None;
      }
      isProcessing := true;
      report := Some(Submission(email, ParseInt(year), subject));
    }
  }
}
