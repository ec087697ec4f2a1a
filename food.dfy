/**
 * The validations of the Food model: presence and uniqueness of `name`,
 * numericality of `price` with a minimum of 0.01, presence of `category_id`,
 * and the custom rule that a present name have at most two words.
 */
module Food {
  import opened Wrappers
  import opened RubyString
  import opened Errors

  /** The attributes that can carry errors. */
  datatype Attribute = Name | Price | CategoryId

  /** The price as assigned, before type casting: nil, a value that does not
      parse as a number (such as "joni"), or an exact number. */
  datatype PriceInput = NoPrice | NotNumeric | Numeric(amount: real)

  /** A Food row or candidate. `id` is nil until the record is persisted. */
  datatype Attributes = Attributes(
    id: Option<int>,
    name: Option<string>,
    description: Option<string>,
    price: PriceInput,
    categoryId: Option<int>)

  const CantBeBlank: string := "can't be blank"
  const AlreadyTaken: string := "has already been taken"
  const NotANumber: string := "is not a number"
  const BelowMinimum: string := "must be greater than or equal to 0.01"
  const TooManyWords: string := "You must have less than 2 words"

  /** The `greater_than_or_equal_to` bound on price. */
  const MinimumPrice: real := 0.01
  /** The custom rule rejects names with more tokens than this. */
  const MaxWords: nat := 2

  /** `validates :name, presence: true`. */
  function NamePresence(f: Attributes): (es: seq<Error<Attribute>>)
    ensures es == [] || es == [Error(Name, CantBeBlank)]
    ensures es == [] <==> Present(f.name)
  {
    if Present(f.name) then [] else [Error(Name, CantBeBlank)]
  }

  /** Another stored row has exactly the candidate's name (nil matching nil);
      a persisted candidate is not compared with its own row. */
  predicate NameTaken(f: Attributes, stored: seq<Attributes>) {
    exists r :: r in stored && r.name == f.name && !(f.id.Some? && r.id == f.id)
  }

  /** `validates :name, uniqueness: true`. */
  function NameUniqueness(f: Attributes, stored: seq<Attributes>): (es: seq<Error<Attribute>>)
    ensures es == [] || es == [Error(Name, AlreadyTaken)]
    ensures es != [] <==> NameTaken(f, stored)
    ensures stored == [] ==> es == []
  {
    if NameTaken(f, stored) then [Error(Name, AlreadyTaken)] else []
  }

  /** `validates_numericality_of :price, greater_than_or_equal_to: 0.01`. */
  function PriceNumericality(f: Attributes): (es: seq<Error<Attribute>>)
    ensures es == [] || es == [Error(Price, NotANumber)] || es == [Error(Price, BelowMinimum)]
    ensures es == [] <==> f.price.Numeric? && f.price.amount >= MinimumPrice
    ensures es == [Error(Price, NotANumber)] <==> !f.price.Numeric?
  {
    match f.price
    case Numeric(v) => if v >= MinimumPrice then [] else [Error(Price, BelowMinimum)]
    case _ => [Error(Price, NotANumber)]
  }

  /** `validates :category_id, presence: true`. */
  function CategoryIdPresence(f: Attributes): (es: seq<Error<Attribute>>)
    ensures es == [] || es == [Error(CategoryId, CantBeBlank)]
    ensures es == [] <==> f.categoryId.Some?
  {
    if f.categoryId.Some? then [] else [Error(CategoryId, CantBeBlank)]
  }

  /** The word-count rule fires: the name is present and splits into more than two tokens. */
  predicate TooManyWordsIn(name: Option<string>) {
    Present(name) && |Split(name.value)| > MaxWords
  }

  /** `validate :word_count_is_less_than_or_equal_to_2_words`. */
  function WordCount(f: Attributes): (es: seq<Error<Attribute>>)
    ensures es == [] || es == [Error(Name, TooManyWords)]
    ensures es != [] <==> Present(f.name) && |Split(f.name.value)| > MaxWords
    ensures es != [] ==> Present(f.name) && |Split(f.name.value)| >= 3
    ensures f.name.Some? && |Split(f.name.value)| <= MaxWords ==> es == []
  {
    if TooManyWordsIn(f.name) then [Error(Name, TooManyWords)] else []
  }

  /** Every violation, in the order the validations are declared. */
  function Violations(f: Attributes, stored: seq<Attributes>): (es: seq<Error<Attribute>>)
    ensures |es| <= 5
    ensures es == [] <==> Present(f.name) && !NameTaken(f, stored) && !TooManyWordsIn(f.name)
                          && f.price.Numeric? && f.price.amount >= MinimumPrice && f.categoryId.Some?
  {
    NamePresence(f) + NameUniqueness(f, stored) + PriceNumericality(f)
    + CategoryIdPresence(f) + WordCount(f)
  }

  /** The error collection that `valid?` leaves behind. */
  function ErrorsOf(f: Attributes, stored: seq<Attributes>): (m: map<Attribute, seq<string>>)
    ensures forall a :: Messages(m, a) == MessagesOn(Violations(f, stored), a)
    ensures NoEmptyEntries(m)
  {
    var m := AddAll(map[], Violations(f, stored));
    AddAllNoEmptyEntries(map[], Violations(f, stored));
    assert forall a :: Messages(m, a) == MessagesOn(Violations(f, stored), a) by {
      forall a ensures Messages(m, a) == MessagesOn(Violations(f, stored), a) {
        MessagesOfAddAll(map[], Violations(f, stored), a);
      }
    }
    m
  }

  /** `valid?`: no attribute has an error. */
  predicate IsValid(f: Attributes, stored: seq<Attributes>)
    ensures IsValid(f, stored) <==> forall a :: Messages(ErrorsOf(f, stored), a) == []
  {
    ErrorsOf(f, stored) == map[]
  }

  /** The messages on `name`: presence, then uniqueness, then word count, each
      exactly when its rule fires. */
  lemma NameMessages(f: Attributes, stored: seq<Attributes>)
    ensures Messages(ErrorsOf(f, stored), Name)
         == (if Present(f.name) then [] else [CantBeBlank])
          + (if NameTaken(f, stored) then [AlreadyTaken] else [])
          + (if TooManyWordsIn(f.name) then [TooManyWords] else [])
  {
    NameViolations(f, stored);
  }

  /** The violations about `name`, rule by rule. */
  lemma NameViolations(f: Attributes, stored: seq<Attributes>)
    ensures MessagesOn(Violations(f, stored), Name)
         == (if Present(f.name) then [] else [CantBeBlank])
          + (if NameTaken(f, stored) then [AlreadyTaken] else [])
          + (if TooManyWordsIn(f.name) then [TooManyWords] else [])
  {
    var p, u, n, c, w := MessagesOn(NamePresence(f), Name), MessagesOn(NameUniqueness(f, stored), Name),
                         MessagesOn(PriceNumericality(f), Name), MessagesOn(CategoryIdPresence(f), Name),
                         MessagesOn(WordCount(f), Name);
    MessagesByRule(f, stored, Name);
    RulesMessages(f, stored, Name);
    assert n == [] && c == [];
    assert p + u + n + c + w == p + u + w;
  }

  /** The messages on `price`: exactly one for a missing or non-numeric value,
      exactly one for a number below 0.01, none otherwise. */
  lemma PriceMessages(f: Attributes, stored: seq<Attributes>)
    ensures Messages(ErrorsOf(f, stored), Price)
         == match f.price
            case Numeric(v) => if v >= MinimumPrice then [] else [BelowMinimum]
            case _ => [NotANumber]
  {
    var p, u, n, c, w := MessagesOn(NamePresence(f), Price), MessagesOn(NameUniqueness(f, stored), Price),
                         MessagesOn(PriceNumericality(f), Price), MessagesOn(CategoryIdPresence(f), Price),
                         MessagesOn(WordCount(f), Price);
    var x := match f.price
             case Numeric(v) => if v >= MinimumPrice then [] else [BelowMinimum]
             case _ => [NotANumber];
    assert MessagesOn(Violations(f, stored), Price) == x by {
      MessagesByRule(f, stored, Price);
      RulesMessages(f, stored, Price);
      assert p + u + n + c + w == n == x;
    }
  }

  /** The messages on `category_id`: "can't be blank" exactly when it is nil. */
  lemma CategoryIdMessages(f: Attributes, stored: seq<Attributes>)
    ensures Messages(ErrorsOf(f, stored), CategoryId)
         == if f.categoryId.None? then [CantBeBlank] else []
  {
    var p, u, n, c, w := MessagesOn(NamePresence(f), CategoryId), MessagesOn(NameUniqueness(f, stored), CategoryId),
                         MessagesOn(PriceNumericality(f), CategoryId), MessagesOn(CategoryIdPresence(f), CategoryId),
                         MessagesOn(WordCount(f), CategoryId);
    var x := if f.categoryId.None? then [CantBeBlank] else [];
    assert MessagesOn(Violations(f, stored), CategoryId) == x by {
      MessagesByRule(f, stored, CategoryId);
      RulesMessages(f, stored, CategoryId);
      assert p + u + n + c + w == c == x;
    }
  }

  /** Splits the messages on one attribute rule by rule. */
  lemma MessagesByRule(f: Attributes, stored: seq<Attributes>, a: Attribute)
    ensures MessagesOn(Violations(f, stored), a)
         == MessagesOn(NamePresence(f), a) + MessagesOn(NameUniqueness(f, stored), a)
          + MessagesOn(PriceNumericality(f), a) + MessagesOn(CategoryIdPresence(f), a)
          + MessagesOn(WordCount(f), a)
  {
    var p, u, n, c, w := NamePresence(f), NameUniqueness(f, stored), PriceNumericality(f),
                         CategoryIdPresence(f), WordCount(f);
    MessagesOnAppend(p + u + n + c, w, a);
    MessagesOnAppend(p + u + n, c, a);
    MessagesOnAppend(p + u, n, a);
    MessagesOnAppend(p, u, a);
  }

  /** Each rule adds at most one message, on its own attribute. */
  lemma RulesMessages(f: Attributes, stored: seq<Attributes>, a: Attribute)
    ensures MessagesOn(NamePresence(f), a) == if a == Name && !Present(f.name) then [CantBeBlank] else []
    ensures MessagesOn(NameUniqueness(f, stored), a) == if a == Name && NameTaken(f, stored) then [AlreadyTaken] else []
    ensures MessagesOn(PriceNumericality(f), a)
         == if a != Price then []
            else match f.price
                 case Numeric(v) => if v >= MinimumPrice then [] else [BelowMinimum]
                 case _ => [NotANumber]
    ensures MessagesOn(CategoryIdPresence(f), a) == if a == CategoryId && f.categoryId.None? then [CantBeBlank] else []
    ensures MessagesOn(WordCount(f), a) == if a == Name && TooManyWordsIn(f.name) then [TooManyWords] else []
  {
    MessagesOnAtMostOne(NamePresence(f), Error(Name, CantBeBlank), a);
    MessagesOnAtMostOne(NameUniqueness(f, stored), Error(Name, AlreadyTaken), a);
    MessagesOnAtMostOne(PriceNumericality(f), Error(Price, if f.price.Numeric? then BelowMinimum else NotANumber), a);
    MessagesOnAtMostOne(CategoryIdPresence(f), Error(CategoryId, CantBeBlank), a);
    MessagesOnAtMostOne(WordCount(f), Error(Name, TooManyWords), a);
  }

  /** The three messages on `name` differ, so each names its rule. */
  lemma NameMessagesDiffer()
    ensures CantBeBlank != AlreadyTaken && CantBeBlank != TooManyWords && AlreadyTaken != TooManyWords
  {
    assert CantBeBlank[0] == 'c' && AlreadyTaken[0] == 'h' && TooManyWords[0] == 'Y';
  }

  /** A message is on `name` exactly when the rule that adds it fires. */
  lemma NameMessageIn(f: Attributes, stored: seq<Attributes>, message: string)
    ensures message in Messages(ErrorsOf(f, stored), Name)
        <==> ((!Present(f.name) && message == CantBeBlank)
              || (NameTaken(f, stored) && message == AlreadyTaken)
              || (TooManyWordsIn(f.name) && message == TooManyWords))
  {
    NameMessages(f, stored);
  }

  /** A nil, empty or whitespace-only name is reported blank, and never as too long. */
  lemma BlankNameIsReported(f: Attributes, stored: seq<Attributes>)
    ensures CantBeBlank in Messages(ErrorsOf(f, stored), Name) <==> !Present(f.name)
    ensures !Present(f.name) ==> TooManyWords !in Messages(ErrorsOf(f, stored), Name)
  {
    NameMessagesDiffer();
    NameMessageIn(f, stored, CantBeBlank);
    NameMessageIn(f, stored, TooManyWords);
  }

  /** "has already been taken" appears exactly when another stored row has the same name. */
  lemma DuplicateNameIsReported(f: Attributes, stored: seq<Attributes>)
    ensures AlreadyTaken in Messages(ErrorsOf(f, stored), Name) <==> NameTaken(f, stored)
  {
    NameMessagesDiffer();
    NameMessageIn(f, stored, AlreadyTaken);
  }

  /** The word-count message appears exactly when a present name has more than
      two tokens; one or two tokens never get it. */
  lemma WordCountIsReported(f: Attributes, stored: seq<Attributes>)
    ensures TooManyWords in Messages(ErrorsOf(f, stored), Name)
        <==> Present(f.name) && |Split(f.name.value)| > 2
  {
    NameMessagesDiffer();
    NameMessageIn(f, stored, TooManyWords);
  }

  /** No rule short-circuits another: a record is valid exactly when every
      rule passes. */
  lemma ValidIffEveryRulePasses(f: Attributes, stored: seq<Attributes>)
    ensures IsValid(f, stored)
        <==> (Present(f.name) && !NameTaken(f, stored) && |Split(f.name.value)| <= 2
              && f.price.Numeric? && f.price.amount >= 0.01 && f.categoryId.Some?)
  {
    AddAllEmpty(Violations(f, stored));
  }

  /** No two rows share a name. */
  predicate NamesUnique(rows: seq<Attributes>) {
    forall i, j :: 0 <= i < |rows| && 0 <= j < |rows| && rows[i].name == rows[j].name ==> i == j
  }

  /** Validation keeps the table's names unique: a new record that passes,
      added to rows with pairwise distinct names, keeps them distinct. */
  lemma ValidInsertKeepsNamesUnique(f: Attributes, stored: seq<Attributes>)
    requires NamesUnique(stored) && f.id.None? && IsValid(f, stored)
    ensures NamesUnique(stored + [f])
  {
    ValidIffEveryRulePasses(f, stored);
    assert forall r :: r in stored ==> r.name != f.name;
    assert forall i :: 0 <= i < |stored| ==> stored[i] in stored;
  }

  /** The examples of the model's test suite. */
  const DescNasiUduk: Option<string> := Some("Betawi style steamed rice cooked in coconut milk. Delicious!")

  lemma TwoWords()
    ensures Split("Nasi Uduk") == ["Nasi", "Uduk"]
  {
    assert IsWord("Nasi") && IsWord("Uduk");
    SplitJoin(["Nasi", "Uduk"]);
    assert Join(["Nasi", "Uduk"]) == "Nasi Uduk";
  }

  lemma ThreeWords()
    ensures Split("Nasi Uduk Jawa") == ["Nasi", "Uduk", "Jawa"]
  {
    assert IsWord("Nasi") && IsWord("Uduk") && IsWord("Jawa");
    SplitJoin(["Nasi", "Uduk", "Jawa"]);
    assert Join(["Nasi", "Uduk", "Jawa"]) == "Nasi Uduk Jawa";
  }

  lemma NasiUdukIsPresent()
    ensures Present(Some("Nasi Uduk")) && Present(Some("Nasi Uduk Jawa"))
  {
    assert !IsBlankSpace("Nasi Uduk"[0]);
    assert !IsBlankSpace("Nasi Uduk Jawa"[0]);
  }

  /** "Nasi Uduk", 15000.0, category 1, into an empty table: valid. */
  lemma ExampleValid()
    ensures IsValid(Attributes(None, Some("Nasi Uduk"), DescNasiUduk, Numeric(15000.0), Some(1)), [])
  {
    var f := Attributes(None, Some("Nasi Uduk"), DescNasiUduk, Numeric(15000.0), Some(1));
    TwoWords();
    NasiUdukIsPresent();
    ValidIffEveryRulePasses(f, []);
  }

  const StoredNasiUduk: Attributes := Attributes(Some(1), Some("Nasi Uduk"), DescNasiUduk, Numeric(10000.0), Some(1))

  /** A second "Nasi Uduk" gets exactly "has already been taken" on `name`. */
  lemma ExampleDuplicate()
    ensures Messages(ErrorsOf(Attributes(None, Some("Nasi Uduk"), Some("Just with a different description."),
                                         Numeric(10000.0), Some(1)), [StoredNasiUduk]), Name)
         == [AlreadyTaken]
  {
    var food2 := Attributes(None, Some("Nasi Uduk"), Some("Just with a different description."), Numeric(10000.0), Some(1));
    TwoWords();
    NasiUdukIsPresent();
    assert StoredNasiUduk in [StoredNasiUduk];
    NameMessages(food2, [StoredNasiUduk]);
  }

  /** The stored "Nasi Uduk", validated again, is not compared with itself. */
  lemma ExampleRevalidate()
    ensures IsValid(StoredNasiUduk, [StoredNasiUduk])
  {
    TwoWords();
    NasiUdukIsPresent();
    ValidIffEveryRulePasses(StoredNasiUduk, [StoredNasiUduk]);
  }

  /** A nil name gets exactly "can't be blank" on `name`. */
  lemma ExampleNilName()
    ensures Messages(ErrorsOf(Attributes(None, None, DescNasiUduk, Numeric(15000.0), Some(1)), []), Name)
         == [CantBeBlank]
  {
    NameMessages(Attributes(None, None, DescNasiUduk, Numeric(15000.0), Some(1)), []);
  }

  /** "joni" as price is not a number; 0.000001 is below the minimum. */
  lemma ExamplePrices()
    ensures Messages(ErrorsOf(Attributes(None, Some("Nasi Uduk"), DescNasiUduk, NotNumeric, Some(1)), []), Price)
         == [NotANumber]
    ensures Messages(ErrorsOf(Attributes(None, Some("Nasi Uduk"), DescNasiUduk, Numeric(0.000001), Some(1)), []), Price)
         == [BelowMinimum]
  {
    PriceMessages(Attributes(None, Some("Nasi Uduk"), DescNasiUduk, NotNumeric, Some(1)), []);
    PriceMessages(Attributes(None, Some("Nasi Uduk"), DescNasiUduk, Numeric(0.000001), Some(1)), []);
  }

  /** "Nasi Uduk Jawa" at 0.001 gets the word-count message on `name` and the
      minimum message on `price`. */
  lemma ExampleThreeWords()
    ensures var f := Attributes(None, Some("Nasi Uduk Jawa"), DescNasiUduk, Numeric(0.001), Some(1));
            Messages(ErrorsOf(f, []), Name) == [TooManyWords]
            && Messages(ErrorsOf(f, []), Price) == [BelowMinimum]
  {
    var f := Attributes(None, Some("Nasi Uduk Jawa"), DescNasiUduk, Numeric(0.001), Some(1));
    ThreeWords();
    NasiUdukIsPresent();
    NameMessages(f, []);
    PriceMessages(f, []);
  }

  /** A record without `category_id` gets "can't be blank" on it. */
  lemma ExampleNoCategory()
    ensures Messages(ErrorsOf(Attributes(None, Some("Nasi Uduk"), DescNasiUduk, Numeric(5000.0), None), []), CategoryId)
         == [CantBeBlank]
  {
    CategoryIdMessages(Attributes(None, Some("Nasi Uduk"), DescNasiUduk, Numeric(5000.0), None), []);
  }

  /** The `present?` guard of the word-count rule is not redundant: three
      no-break spaces separated by spaces are blank yet split into three tokens,
      and the name gets only the presence message. */
  lemma ExampleBlankThreeTokens()
    ensures var nb := "\U{00A0}";
            var name := nb + " " + nb + " " + nb;
            |Split(name)| == 3
            && Messages(ErrorsOf(Attributes(None, Some(name), None, Numeric(1.0), Some(1)), []), Name)
               == [CantBeBlank]
  {
    var nb := "\U{00A0}";
    var name := nb + " " + nb + " " + nb;
    assert IsWord(nb);
    SplitWord(nb);
    assert name == nb + [' '] + (nb + [' '] + nb);
    SplitAtSpace(nb, ' ', nb + [' '] + nb);
    SplitAtSpace(nb, ' ', nb);
    assert IsBlank(name);
    NameMessages(Attributes(None, Some(name), None, Numeric(1.0), Some(1)), []);
  }

  /**
   * A Food record with its error collection. `Validate` is `valid?`: it
   * clears `errors` and lets each declared validation add its messages.
   */
  class FoodRecord {
    var id: Option<int>
    var name: Option<string>
    var description: Option<string>
    var price: PriceInput
    var categoryId: Option<int>
    var errors: map<Attribute, seq<string>>

    /** The record's current attribute values. */
    function Attrs(): Attributes
      reads this`id, this`name, this`description, this`price, this`categoryId
    {
      Attributes(id, name, description, price, categoryId)
    }

    /** `Food.new(attrs)`: no errors until validated. */
    constructor (attrs: Attributes)
      ensures Attrs() == attrs && errors == map[]
    {
      id, name, description := attrs.id, attrs.name, attrs.description;
      price, categoryId := attrs.price, attrs.categoryId;
      errors := map[];
    }

    /** `errors.add(a, message)`. */
    method AddError(a: Attribute, message: string)
      modifies this`errors
      ensures errors == Add(old(errors), a, message)
    {
      errors := Add(errors, a, message);
    }

    method ValidateNamePresence()
      modifies this`errors
      ensures errors == AddAll(old(errors), NamePresence(Attrs()))
    {
      if !Present(name) {
        AddError(Name, CantBeBlank);
      }
    }

    method ValidateNameUniqueness(stored: seq<Attributes>)
      modifies this`errors
      ensures errors == AddAll(old(errors), NameUniqueness(Attrs(), stored))
    {
      if NameTaken(Attrs(), stored) {
        AddError(Name, AlreadyTaken);
      }
    }

    method ValidatePriceNumericality()
      modifies this`errors
      ensures errors == AddAll(old(errors), PriceNumericality(Attrs()))
    {
      match price
      case Numeric(v) =>
        if v < MinimumPrice {
          AddError(Price, BelowMinimum);
        }
      case _ =>
        AddError(Price, NotANumber);
    }

    method ValidateCategoryIdPresence()
      modifies this`errors
      ensures errors == AddAll(old(errors), CategoryIdPresence(Attrs()))
    {
      if categoryId.None? {
        AddError(CategoryId, CantBeBlank);
      }
    }

    /** `word_count_is_less_than_or_equal_to_2_words`. */
    method WordCountIsLessThanOrEqualToTwoWords()
      modifies this`errors
      ensures errors == AddAll(old(errors), WordCount(Attrs()))
    {
      if TooManyWordsIn(name) {
        AddError(Name, TooManyWords);
      }
    }

    /** `valid?` against the rows already stored. */
    method Validate(stored: seq<Attributes>) returns (valid: bool)
      modifies this`errors
      ensures errors == ErrorsOf(Attrs(), stored)
      ensures valid == IsValid(Attrs(), stored)
    {
      var f := Attrs();
      ghost var p, u, n, c, w := NamePresence(f), NameUniqueness(f, stored), PriceNumericality(f),
                                 CategoryIdPresence(f), WordCount(f);
      errors := map[];
      ValidateNamePresence();
      assert errors == AddAll(map[], p);
      ValidateNameUniqueness(stored);
      AddAllAppend(map[], p, u);
      assert errors == AddAll(map[], p + u);
      ValidatePriceNumericality();
      AddAllAppend(map[], p + u, n);
      assert errors == AddAll(map[], p + u + n);
      ValidateCategoryIdPresence();
      AddAllAppend(map[], p + u + n, c);
      assert errors == AddAll(map[], p + u + n + c);
      WordCountIsLessThanOrEqualToTwoWords();
      AddAllAppend(map[], p + u + n + c, w);
      assert errors == AddAll(map[], Violations(f, stored));
      assert Attrs() == f && errors == ErrorsOf(f, stored);
      valid := |errors| == 0;
    }
  }
}
