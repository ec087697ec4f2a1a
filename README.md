# Food model: validations and `by_letter`

A Dafny model of the `Food` model of a small Rails application
(`app/models/food.rb`). It covers the two behaviours that file defines:

- **Validation** (`valid?`). Five rules run in declaration order. Each rule may
  append a message to the record's error collection, which is keyed by
  attribute:
  - `name` must be present (`can't be blank`);
  - `name` must be unique among the stored rows (`has already been taken`);
  - `price` must be a number (`is not a number`) of at least 0.01
    (`must be greater than or equal to 0.01`);
  - `category_id` must be present (`can't be blank`);
  - a present `name` must not split into more than two words
    (`You must have less than 2 words`).

  No rule stops another. A record is valid exactly when the collection is empty.
- **`Food.by_letter(letter)`**: the stored rows whose name begins with `letter`,
  in ascending order of name.

Files:

- `wrappers.dfy`: `Option`, which stands for Ruby's `nil`.
- `ruby_string.dfy`: argument-less `String#split` and `present?`. The split
  comes with reference definitions and the lemmas that tie them to it: the
  text kept, the number of word starts, splitting at a separator, and the
  round trip with `join(" ")`.
- `collation.dfy`: the prefix test of `LIKE 'p%'`. Also the binary
  lexicographic order of `ORDER BY name`, with the lemmas that make it a
  total order.
- `errors.dfy`: the error collection, as the fold of `errors.add` over the
  violations in order, with lemmas about what each attribute holds.
- `food.dfy`: the rules (one function per validator); `ErrorsOf`, the
  collection that `valid?` produces; lemmas for every rule in both directions;
  the examples of the model's RSpec file. Also the class `FoodRecord`, whose
  `Validate` method clears `errors` and runs one method per validation, each
  updating the `errors` field in place.
- `food_finder.dfy`: `by_letter`, written as `Where` (filter) followed by
  `OrderByName` (an insertion sort). The lemmas prove that the result is
  sorted, is a permutation of the matching rows, and holds exactly those rows.
  A further lemma proves that when the stored names are distinct, every
  name-ordered arrangement of the matching rows equals the result.

Behaviour the model fixes as Ruby, ActiveSupport, Rails and the code decide it:

- `split` separates on ASCII whitespace (space, tab, LF, VT, FF, CR), as Ruby's
  awk-style split does. `blank?` counts every Unicode White_Space character as
  blank, as ActiveSupport's `[[:space:]]` does. So a name of no-break spaces
  separated by ordinary spaces is blank, yet splits into several tokens.
  `ExampleBlankThreeTokens` shows that the `present?` guard on line 14 is
  therefore not redundant.
- `nil` matches `nil` in the uniqueness rule (Rails queries `name IS NULL`). A
  persisted candidate (one with an `id`) is never compared with its own stored
  row, as Rails's uniqueness
  validator skips a persisted record's own id. The RSpec file exercises this
  when it calls `food1.valid?` on the stored row (spec/models/food_spec.rb:49),
  without asserting the result.
- A missing price and an unparsable price both get `is not a number`, as the
  numericality validator does without `allow_nil`. The validator reads the
  value as assigned, before any cast to the column type.
- A `nil` name never matches `LIKE`.
- A name of at most two tokens is not enough for validity: an empty name has
  zero tokens but fails the presence rule of line 4, so
  `ValidIffEveryRulePasses` includes `Present(name)`.
- The message says "less than 2 words", but the code rejects only names with
  more than 2 tokens, so two-word names are accepted. The model keeps the
  threshold and the message text exactly as coded.

Assumptions, where the outcome depends on the database or is a modelling
choice:

- Uniqueness compares names exactly and case-sensitively.
- `LIKE 'p%'` is a case-sensitive prefix test, and `p` is taken literally.
- `ORDER BY name` compares code points (binary collation). Rows with equal
  names keep table order.
- A price is an exact `real`.

## Model

| member | source | states |
|---|---|---|
| RubyString.Present | app/models/food.rb:14 | a present name is non-nil and non-empty, and a name whose first character is not whitespace is present |
| RubyString.Split | app/models/food.rb:14 | every token of `name.split` is non-empty and contains no whitespace |
| RubyString.SplitKeepsText | app/models/food.rb:14 | the tokens, joined, are exactly the input's non-whitespace characters in order |
| RubyString.SplitCountsWordStarts | app/models/food.rb:14 | `split.size` equals the number of positions where a word begins |
| RubyString.SplitAtSpace | app/models/food.rb:14 | a whitespace character cuts the input into two parts whose tokens are concatenated |
| RubyString.SplitJoin | app/models/food.rb:14 | splitting undoes joining whitespace-free words with single spaces |
| RubyString.NoWordsIsBlank | app/models/food.rb:14 | a string with no tokens is blank, so a present name has at least one token |
| Collation.HasPrefix | app/models/food.rb:10 | `name LIKE 'p%'` holds exactly when the name is `p` followed by some string |
| Collation.Le | app/models/food.rb:10 | a non-empty name sorts no later than another only when the other is non-empty and starts with a character no smaller |
| Collation.LeReflexive | app/models/food.rb:10 | the name order is reflexive |
| Collation.LeAntisymmetric | app/models/food.rb:10 | the name order is antisymmetric |
| Collation.LeTransitive | app/models/food.rb:10 | the name order is transitive |
| Collation.LeTotal | app/models/food.rb:10 | any two names are comparable |
| Collation.PrefixIsLe | app/models/food.rb:10 | a prefix sorts no later than the names it begins |
| Collation.FirstDifferenceDecides | app/models/food.rb:10 | at the first differing position the smaller character sorts first, strictly |
| Errors.Add | app/models/food.rb:15 | `errors.add` appends the message to that attribute's list and changes no other attribute |
| Errors.AddAll | app/models/food.rb:4-7 | adding violations keeps every attribute already present and gives an entry to every attribute that received a message |
| Errors.MessagesOnAppend | app/models/food.rb:4-7 | the messages on one attribute from two batches of violations are the two lists concatenated |
| Errors.AddAllAppend | app/models/food.rb:4-7 | running validations one after another equals adding all their violations at once |
| Errors.MessagesOfAddAll | app/models/food.rb:4-7 | after the validations, each attribute holds its earlier messages followed by the new ones about it, in order |
| Errors.AddAllNoEmptyEntries | app/models/food.rb:4-7 | every attribute present in the collection holds at least one message |
| Errors.AddAllEmpty | app/models/food.rb:4-7 | the collection is empty exactly when no validation added anything |
| Food.NamePresence | app/models/food.rb:4 | the presence rule yields nothing when the name is present and exactly "can't be blank" on `name` otherwise |
| Food.NameUniqueness | app/models/food.rb:4 | the uniqueness rule yields exactly "has already been taken" on `name` when another stored row has the same name (nil matching nil, a persisted record's own row excluded), nothing otherwise, and nothing when no rows are stored |
| Food.PriceNumericality | app/models/food.rb:5 | the numericality rule yields nothing for a number of at least 0.01, exactly "is not a number" for a nil or unparsable price, and otherwise exactly the minimum message |
| Food.CategoryIdPresence | app/models/food.rb:6 | the presence rule yields nothing when `category_id` is set and exactly "can't be blank" on it otherwise |
| Food.WordCount | app/models/food.rb:13-17 | the custom rule yields at most the word-count message on `name`, exactly when the name is present and splits into more than 2 tokens, and never for a name of at most two tokens |
| Food.Violations | app/models/food.rb:4-7 | at most one violation per rule (five in all), and none exactly when every rule passes |
| Food.ErrorsOf | app/models/food.rb:4-7 | each attribute's messages are the violations about it in declaration order, and no attribute holds an empty list |
| Food.IsValid | app/models/food.rb:4-7 | `valid?` holds exactly when no attribute has a message |
| Food.NameMessages | app/models/food.rb:4 | the messages on `name` are presence, uniqueness and word count, in that order, each exactly when its rule fires |
| Food.PriceMessages | app/models/food.rb:5 | `price` gets exactly "is not a number" when nil or non-numeric, exactly the minimum message below 0.01, nothing otherwise |
| Food.CategoryIdMessages | app/models/food.rb:6 | `category_id` gets exactly "can't be blank" when nil and nothing otherwise |
| Food.BlankNameIsReported | app/models/food.rb:4 | "can't be blank" is on `name` iff the name is nil or blank, and a blank name never gets the word-count message |
| Food.DuplicateNameIsReported | app/models/food.rb:4 | "has already been taken" is on `name` iff another stored row has the same name |
| Food.WordCountIsReported | app/models/food.rb:13-17 | the word-count message is on `name` iff the name is present and splits into more than 2 tokens |
| Food.ValidInsertKeepsNamesUnique | app/models/food.rb:4 | adding a new record that passes validation to rows with distinct names keeps the names distinct |
| Food.ValidIffEveryRulePasses | app/models/food.rb:4-7 | a record is valid iff its name is present, untaken and at most 2 words, its price is a number of at least 0.01, and it has a category id |
| Food.ExampleValid | spec/models/food_spec.rb:4-15 | "Nasi Uduk" at 15000.0 with category 1 is valid |
| Food.ExampleNilName | spec/models/food_spec.rb:17-30 | a nil name gets exactly "can't be blank" on `name` |
| Food.ExampleDuplicate | spec/models/food_spec.rb:32-53 | a second "Nasi Uduk" gets exactly "has already been taken" on `name` |
| Food.ExampleRevalidate | spec/models/food_spec.rb:49 | the stored "Nasi Uduk", validated again, is valid, because the uniqueness rule skips its own row (the RSpec line calls `valid?` without asserting the result) |
| Food.ExamplePrices | spec/models/food_spec.rb:88-116 | the price "joni" is not a number, and 0.000001 is below the minimum |
| Food.ExampleThreeWords | spec/models/food_spec.rb:118-131 | "Nasi Uduk Jawa" at 0.001 gets the word-count message on `name` and the minimum message on `price` |
| Food.ExampleNoCategory | spec/models/food_spec.rb:133-143 | a record without `category_id` gets "can't be blank" on it |
| Food.ExampleBlankThreeTokens | app/models/food.rb:14 | a blank name made of three no-break spaces separated by ordinary spaces has three tokens yet gets only "can't be blank" |
| Food.FoodRecord.AddError | app/models/food.rb:15 | the `errors` field becomes the old collection with the message appended |
| Food.FoodRecord.ValidateNamePresence | app/models/food.rb:4 | `errors` gains the presence violation, if any |
| Food.FoodRecord.ValidateNameUniqueness | app/models/food.rb:4 | `errors` gains the uniqueness violation, if any |
| Food.FoodRecord.ValidatePriceNumericality | app/models/food.rb:5 | `errors` gains the numericality violation, if any |
| Food.FoodRecord.ValidateCategoryIdPresence | app/models/food.rb:6 | `errors` gains the `category_id` presence violation, if any |
| Food.FoodRecord.WordCountIsLessThanOrEqualToTwoWords | app/models/food.rb:13-17 | `errors` gains the word-count message when the name is present and splits into more than 2 tokens |
| Food.FoodRecord.Validate | app/models/food.rb:4-7 | `errors` ends equal to `ErrorsOf` of the attributes, and the result is true iff the record is valid |
| FoodFinder.Where | app/models/food.rb:10 | the `where` clause returns no more rows than stored, and every row it returns has a name starting with the letter |
| FoodFinder.WhereSelects | app/models/food.rb:10 | the result holds exactly the stored rows whose name starts with the letter, each as often as it is stored |
| FoodFinder.Insert | app/models/food.rb:10 | inserting into a name-sorted sequence keeps it sorted and adds exactly that row |
| FoodFinder.OrderByName | app/models/food.rb:10 | the result is sorted by name and is a permutation of the input |
| FoodFinder.ByLetter | app/models/food.rb:9-11 | the result is sorted by name, is a permutation of the matching rows, and holds exactly the stored rows whose name starts with the letter |
| FoodFinder.StrictOrderIsUnique | app/models/food.rb:10 | a sequence strictly sorted by name is the only sorted arrangement of its rows |
| FoodFinder.WhereKeepsNamesUnique | app/models/food.rb:10 | when stored names are distinct, the matching rows have distinct names |
| FoodFinder.ByLetterIsDetermined | app/models/food.rb:9-11 | when stored names are distinct, every name-sorted permutation of the matching rows equals the `by_letter` result |
| FoodFinder.EmptyPrefixMatchesAllNamed | app/models/food.rb:10 | an empty prefix returns every row that has a name |
| FoodFinder.ExampleByLetter | spec/models/food_spec.rb:55-85 | `by_letter("N")` over "Nasi Uduk", "Kerak Telor" and "Nasi Semur" is "Nasi Semur" then "Nasi Uduk" |

## Left out

- The `belongs_to :category` association (app/models/food.rb:2). Since Rails 5 it also adds a "must exist" error on `category` when the referenced category row is missing. That check needs a database lookup of `categories`, so only the `category_id` presence rule of line 6 is modelled.
- Persistence: `Food.create`, `save`, and the database queries behind uniqueness and `by_letter`. Uniqueness is a check against a given sequence of stored rows.
- The race between two concurrent inserts of the same name. It is concurrency in the database and is not in the code.
- The migration `db/migrate/20220407015323_create_foods.rb`. It declares `price` as an integer column (line 6), which would truncate fractional prices on storage. Column storage and type casting are not modelled.
- Parsing input into numbers, and floating-point prices. A price is nil, unparsable or an exact `real`.
- SQL `LIKE` wildcards (`%` and `_` inside the letter) and escaping. Case-insensitive `LIKE` and collation-dependent ordering, which depend on the database, are also left out.
- FoodFinder.OrderByName: keeps table order among rows with equal names, whereas SQL leaves their order unspecified. `ByLetterIsDetermined` shows the result does not depend on this choice when names are distinct, as validation keeps them.
- Persistence state: a candidate counts as persisted when its `id` is set. In Rails, `Food.new(id: k)` is still a new record and is compared with the row `k`; the model excludes that row.
- The `description` attribute is carried in the records but has no rule.
- The `Category` model. None of its rules are visible.
