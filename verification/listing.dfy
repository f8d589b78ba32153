/** One iteration of the scraper's listing loop (iPhone8Scrape.py, lines
    62-144): the ordered rejection checks, the de-duplication set, and the
    classification of model type and storage capacity. */
module Listing {
  import opened Wrappers
  import opened Text
  import Price

  /** The exceptions the loop body distinguishes: a stale element reference
      (line 140) and any other exception (line 143). Both skip the listing. */
  datatype Fault = Stale | OtherError

  /** One browser read: the value, or the exception the read raised. */
  datatype Read<+T> = Got(value: T) | Raised(fault: Fault)

  /** The reads the loop body makes on one listing, in the order it makes
      them. `subImages` stands for locating and scrolling to the element and
      looking up `.hz-Listing-sub-images`: `Got(true)` when it is found,
      `Got(false)` when the lookup raises `NoSuchElementException`, `Raised`
      when any of these steps raises something else. */
  datatype RawListing = RawListing(
    subImages: Read<bool>,
    price: Read<string>,
    description: Read<string>,
    link: Read<string>,
    title: Read<string>)

  datatype ModelType = IPhone8 | IPhone8Plus {
    function Name(): string {
      match this
      case IPhone8 => "iPhone 8"
      case IPhone8Plus => "iPhone 8 Plus"
    }
  }

  datatype Capacity = GB64 | GB128 | GB256 | GB512 | TB1 {
    /** The text searched for in the title and description. */
    function Token(): string {
      match this
      case GB64 => "64"
      case GB128 => "128"
      case GB256 => "256"
      case GB512 => "512"
      case TB1 => "1TB"
    }

    /** The text written to the output file. */
    function Label(): string {
      match this
      case GB64 => "64GB"
      case GB128 => "128GB"
      case GB256 => "256GB"
      case GB512 => "512GB"
      case TB1 => "1TB"
    }
  }

  /** What the scraper collects for one accepted listing (lines 132-138). */
  datatype Record = Record(
    modelType: ModelType,
    capacity: Option<Capacity>,
    price: string,
    description: string,
    link: string)

  datatype Skip =
    | SubImages
    | InvalidPrice
    | Banned
    | Duplicate
    | ZeroPrice
    | NoModelType
    | Failed(fault: Fault)

  datatype Outcome = Recorded(record: Record) | Skipped(reason: Skip)

  /** The content filter: the lowered description mentions used products or
      a warranty. The title is not consulted. */
  predicate IsBanned(description: string) {
    var d := Lower(description);
    Contains(d, "used products") || Contains(d, "garantie")
  }

  /** The model type, from the lowered title (lines 105-110). */
  function ClassifyModel(title: string): Option<ModelType> {
    if Contains(title, "8") && Contains(title, "plus") && Contains(title, "iphone") then Some(IPhone8Plus)
    else if Contains(title, "iphone") && Contains(title, "8") then Some(IPhone8)
    else None
  }

  /** The capacity, from the lowered title and the description as read
      (lines 116-127). */
  function ClassifyCapacity(title: string, description: string): Option<Capacity> {
    if Contains(title, "64") || Contains(description, "64") then Some(GB64)
    else if Contains(title, "128") || Contains(description, "128") then Some(GB128)
    else if Contains(title, "256") || Contains(description, "256") then Some(GB256)
    else if Contains(title, "512") || Contains(description, "512") then Some(GB512)
    else if Contains(title, "1TB") || Contains(description, "1TB") then Some(TB1)
    else None
  }

  /** An ordered keyword rule: it fires when every keyword occurs in the text. */
  datatype Rule<+T> = Rule(keywords: seq<string>, result: T)

  predicate AllOccur(keywords: seq<string>, text: string) {
    forall i :: 0 <= i < |keywords| ==> Contains(text, keywords[i])
  }

  /** Top-to-bottom evaluation of a rule table, first match wins. */
  function FirstRule<T(==)>(rules: seq<Rule<T>>, text: string): (r: Option<T>)
    ensures r.None? <==> forall i :: 0 <= i < |rules| ==> !AllOccur(rules[i].keywords, text)
    ensures r.Some? ==> exists i :: 0 <= i < |rules| && AllOccur(rules[i].keywords, text)
                                    && r.value == rules[i].result
                                    && forall j :: 0 <= j < i ==> !AllOccur(rules[j].keywords, text)
    decreases |rules|
  {
    if |rules| == 0 then None
    else if AllOccur(rules[0].keywords, text) then Some(rules[0].result)
    else
      var r := FirstRule(rules[1..], text);
      if r.Some? then
        var i :| 0 <= i < |rules[1..]| && AllOccur(rules[1..][i].keywords, text)
                 && r.value == rules[1..][i].result
                 && forall j :: 0 <= j < i ==> !AllOccur(rules[1..][j].keywords, text);
        assert AllOccur(rules[i + 1].keywords, text) && r.value == rules[i + 1].result;
        r
      else r
  }

  /** The model-type table: the Plus rule is tried before the plain rule. */
  const MODEL_RULES: seq<Rule<ModelType>> :=
    [Rule(["8", "plus", "iphone"], IPhone8Plus), Rule(["iphone", "8"], IPhone8)]

  /** The capacity tokens in the order they are tried. */
  const CAPACITY_ORDER: seq<Capacity> := [GB64, GB128, GB256, GB512, TB1]

  /** The first capacity whose token occurs in either text. */
  function FirstCapacity(order: seq<Capacity>, title: string, description: string): Option<Capacity>
    decreases |order|
  {
    if |order| == 0 then None
    else if Contains(title, order[0].Token()) || Contains(description, order[0].Token()) then Some(order[0])
    else FirstCapacity(order[1..], title, description)
  }

  /** The if-chain of the source is the model-type table read top to bottom. */
  lemma ClassifyModelIsRuleTable(title: string)
    ensures ClassifyModel(title) == FirstRule(MODEL_RULES, title)
  {
    var plus := MODEL_RULES[0].keywords;
    var plain := MODEL_RULES[1].keywords;
    assert AllOccur(plus, title) <==> Contains(title, "8") && Contains(title, "plus") && Contains(title, "iphone") by {
      assert plus[0] == "8" && plus[1] == "plus" && plus[2] == "iphone";
    }
    assert AllOccur(plain, title) <==> Contains(title, "iphone") && Contains(title, "8") by {
      assert plain[0] == "iphone" && plain[1] == "8";
    }
    assert MODEL_RULES[1..][1..] == [];
  }

  /** Model type in words: Plus needs `8`, `plus` and `iphone`; plain needs
      `iphone` and `8` and is chosen only when `plus` is absent. */
  lemma ClassifyModelIff(title: string)
    ensures ClassifyModel(title) == Some(IPhone8Plus) <==>
            Contains(title, "8") && Contains(title, "plus") && Contains(title, "iphone")
    ensures ClassifyModel(title) == Some(IPhone8) <==>
            Contains(title, "iphone") && Contains(title, "8") && !Contains(title, "plus")
    ensures ClassifyModel(title).None? <==> !(Contains(title, "iphone") && Contains(title, "8"))
  {
  }

  /** The capacity chain is the ordered token table, first match wins. */
  lemma ClassifyCapacityIsTable(title: string, description: string)
    ensures ClassifyCapacity(title, description) == FirstCapacity(CAPACITY_ORDER, title, description)
  {
    var o := CAPACITY_ORDER;
    assert o[1..][1..][1..][1..][1..] == [];
  }

  /** `1TB` contains upper-case letters, so it never occurs in a lowered
      title: only the description can supply that capacity. */
  lemma TerabyteOnlyFromDescription(rawTitle: string, description: string)
    requires ClassifyCapacity(Lower(rawTitle), description) == Some(TB1)
    ensures Contains(description, "1TB")
    ensures !Contains(Lower(rawTitle), "1TB")
  {
    if Contains(Lower(rawTitle), "1TB") {
      ContainsHasChars(Lower(rawTitle), "1TB", 1);
      LowerHasNoUpper(rawTitle, 'T');
    }
  }

  /** The `8` may come from any number in the title. */
  lemma EightFromAnyNumber()
    ensures ClassifyModel("iphone 11 128gb") == Some(IPhone8)
  {
    ExampleTitleFacts();
  }

  lemma ExampleTitleFacts()
    ensures Contains("iphone 11 128gb", "iphone")
    ensures Contains("iphone 11 128gb", "8")
    ensures !Contains("iphone 11 128gb", "plus")
  {
    ExampleHasEight();
    ExampleHasNoPlus();
  }

  lemma ExampleHasEight()
    ensures Contains("iphone 11 128gb", "8")
  {
    var t := "iphone 11 128gb";
    assert OccursAt(t, "8", 12);
    ContainsIff(t, "8");
  }

  lemma ExampleHasNoPlus()
    ensures !Contains("iphone 11 128gb", "plus")
  {
    if Contains("iphone 11 128gb", "plus") {
      ContainsHasChars("iphone 11 128gb", "plus", 1);
    }
  }

  /** The five checks before the description enters the seen set, all passed. */
  predicate Admitted(l: RawListing, seen: set<string>) {
    && l.subImages == Got(false)
    && l.price.Got? && Price.IsValidPrice(l.price.value)
    && l.description.Got? && !IsBanned(l.description.value)
    && l.description.value !in seen
    && !Price.IsZeroPrice(l.price.value)
  }

  /** Everything the loop body needs before it appends a record: the checks
      passed, the link and the title were read, and the title names a model
      type. */
  predicate Recordable(l: RawListing, seen: set<string>) {
    && Admitted(l, seen)
    && l.link.Got? && l.title.Got?
    && ClassifyModel(Lower(l.title.value)).Some?
  }

  /** The dictionary appended for a listing (lines 130-138): the model type
      and capacity read from the lowered title, the normalised price, and the
      description and link as read. */
  function RecordOf(l: RawListing): Record
    requires l.price.Got? && l.description.Got? && l.link.Got? && l.title.Got?
    requires ClassifyModel(Lower(l.title.value)).Some?
  {
    var title := Lower(l.title.value);
    Record(ClassifyModel(title).value, ClassifyCapacity(title, l.description.value),
           Price.Normalize(l.price.value), l.description.value, l.link.value)
  }

  /** The loop body for one listing: the outcome and the seen set after it. */
  function Process(l: RawListing, seen: set<string>): (r: (Outcome, set<string>))
    ensures r.1 == if Admitted(l, seen) then seen + {l.description.value} else seen
    ensures r.0.Recorded? <==> Recordable(l, seen)
    ensures Recordable(l, seen) ==> r.0 == Recorded(RecordOf(l))
    ensures r.0.Recorded? ==>
            && Admitted(l, seen) && l.link.Got? && l.title.Got?
            && var title := Lower(l.title.value);
               && ClassifyModel(title) == Some(r.0.record.modelType)
               && r.0.record.capacity == ClassifyCapacity(title, l.description.value)
               && r.0.record.price == Price.Normalize(l.price.value)
               && r.0.record.description == l.description.value
               && r.0.record.link == l.link.value
  {
    match l.subImages
    case Raised(f) => (Skipped(Failed(f)), seen)
    case Got(found) =>
      if found then (Skipped(SubImages), seen)
      else
        match l.price
        case Raised(f) => (Skipped(Failed(f)), seen)
        case Got(price) =>
          if !Price.IsValidPrice(price) then (Skipped(InvalidPrice), seen)
          else
            match l.description
            case Raised(f) => (Skipped(Failed(f)), seen)
            case Got(description) =>
              if IsBanned(description) then (Skipped(Banned), seen)
              else if description in seen then (Skipped(Duplicate), seen)
              else if Price.IsZeroPrice(price) then (Skipped(ZeroPrice), seen)
              else
                var seen' := seen + {description};
                match l.link
                case Raised(f) => (Skipped(Failed(f)), seen')
                case Got(link) =>
                  match l.title
                  case Raised(f) => (Skipped(Failed(f)), seen')
                  case Got(rawTitle) =>
                    var title := Lower(rawTitle);
                    match ClassifyModel(title)
                    case None => (Skipped(NoModelType), seen')
                    case Some(modelType) =>
                      var record := Record(modelType, ClassifyCapacity(title, description),
                                           Price.Normalize(price), description, link);
                      (Recorded(record), seen')
  }

  /** The skip reasons of `Process`, each stated as exactly the inputs that
      produce it. */
  lemma ProcessPrecedence(l: RawListing, seen: set<string>)
    // The checks fire in source order; each fires only when all earlier ones passed.
    ensures Process(l, seen).0 == Skipped(SubImages) <==> l.subImages == Got(true)
    ensures Process(l, seen).0 == Skipped(InvalidPrice) <==>
            l.subImages == Got(false) && l.price.Got? && !Price.IsValidPrice(l.price.value)
    ensures Process(l, seen).0 == Skipped(Banned) <==>
            && l.subImages == Got(false) && l.price.Got? && Price.IsValidPrice(l.price.value)
            && l.description.Got? && IsBanned(l.description.value)
    ensures Process(l, seen).0 == Skipped(Duplicate) <==>
            && l.subImages == Got(false) && l.price.Got? && Price.IsValidPrice(l.price.value)
            && l.description.Got? && !IsBanned(l.description.value)
            && l.description.value in seen
    ensures Process(l, seen).0 == Skipped(ZeroPrice) <==>
            && l.subImages == Got(false) && l.price.Got? && Price.IsValidPrice(l.price.value)
            && l.description.Got? && !IsBanned(l.description.value)
            && l.description.value !in seen && Price.IsZeroPrice(l.price.value)
    // After the checks, only a failed read or an unknown model type drops the listing.
    ensures Admitted(l, seen) ==>
            (Process(l, seen).0 == Skipped(NoModelType) <==>
             l.link.Got? && l.title.Got? && ClassifyModel(Lower(l.title.value)).None?)
  {
  }

  /** A listing is dropped for a failed read exactly when the first read the
      loop body reaches raises: the sub-image lookup, then the price, the
      description, and, once the description is in the seen set, the link and
      the title. */
  lemma ProcessFaults(l: RawListing, seen: set<string>, f: Fault)
    ensures Process(l, seen).0 == Skipped(Failed(f)) <==>
            || l.subImages == Raised(f)
            || (l.subImages == Got(false) && l.price == Raised(f))
            || (&& l.subImages == Got(false) && l.price.Got? && Price.IsValidPrice(l.price.value)
                && l.description == Raised(f))
            || (Admitted(l, seen) && l.link == Raised(f))
            || (Admitted(l, seen) && l.link.Got? && l.title == Raised(f))
  {
  }

  /** A description that passed the checks once blocks every later listing
      with the same description, even when the first listing was then dropped
      for a failed read or an unknown model type. */
  lemma AdmittedBlocksLater(first: RawListing, seen: set<string>, later: RawListing, seenLater: set<string>)
    requires Admitted(first, seen)
    requires Process(first, seen).1 <= seenLater
    requires later.description == first.description
    ensures !Process(later, seenLater).0.Recorded?
  {
  }

  /** A banned word in the description rejects the listing at the content
      filter, whatever the title says. */
  lemma BannedRejectedRegardlessOfTitle(price: string, link: string, seen: set<string>)
    requires Price.IsValidPrice(price)
    ensures var l := RawListing(Got(false), Got(price),
                                Got("Nette telefoon met garantie"), Got(link), Got("iPhone 8 Plus 64GB"));
            Process(l, seen).0 == Skipped(Banned)
  {
    var d := "Nette telefoon met garantie";
    assert Lower(d)[19..27] == "garantie";
    assert OccursAt(Lower(d), "garantie", 19);
    ContainsIff(Lower(d), "garantie");
    ProcessPrecedence(RawListing(Got(false), Got(price), Got(d), Got(link), Got("iPhone 8 Plus 64GB")), seen);
  }

  /** Two listings with the same description: once the first has passed the
      checks, the second is a duplicate whatever its price. */
  lemma SecondOfTwinsIsDuplicate(first: RawListing, second: RawListing, seen: set<string>)
    requires Admitted(first, seen)
    requires second.subImages == Got(false)
    requires second.price.Got? && Price.IsValidPrice(second.price.value)
    requires second.description == first.description
    ensures Process(second, Process(first, seen).1).0 == Skipped(Duplicate)
  {
    ProcessPrecedence(second, Process(first, seen).1);
  }
}
