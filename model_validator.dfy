/** The four declarative rules a new dog must satisfy, with their messages. */
module ModelValidator {
  import opened Models
  import opened Text

  const NameRequired: string := "Dog name is required."
  const ColorRequired: string := "Dog color is required."
  const TailLengthNegative: string := "Tail length must be non-negative."
  const WeightNotPositive: string := "Weight must be greater than zero."

  /** The four rules, one per `RuleFor` of the validator. */
  datatype Rule = NameRule | ColorRule | TailLengthRule | WeightRule

  /** Place of a rule in declaration order. */
  function Rank(r: Rule): nat {
    match r
    case NameRule => 0
    case ColorRule => 1
    case TailLengthRule => 2
    case WeightRule => 3
  }

  /** Message a rule reports when it fails. */
  function Message(r: Rule): string {
    match r
    case NameRule => NameRequired
    case ColorRule => ColorRequired
    case TailLengthRule => TailLengthNegative
    case WeightRule => WeightNotPositive
  }

  /** `NotEmpty` on the two strings, `GreaterThanOrEqualTo(0)` on the tail
      length, `GreaterThan(0)` on the weight. */
  predicate Fails(r: Rule, d: Dog) {
    match r
    case NameRule => IsBlank(d.name)
    case ColorRule => IsBlank(d.color)
    case TailLengthRule => d.tailLength < 0
    case WeightRule => d.weight <= 0.0
  }

  /** A dog the rules accept. */
  predicate IsValid(d: Dog) {
    !IsBlank(d.name) && !IsBlank(d.color) && d.tailLength >= 0 && d.weight > 0.0
  }

  /** The four rule messages. */
  const RuleMessages: set<string> := {NameRequired, ColorRequired, TailLengthNegative, WeightNotPositive}

  /** Position of a rule message in declaration order (4 for any other string). */
  function RulePosition(m: string): nat {
    if m == NameRequired then 0
    else if m == ColorRequired then 1
    else if m == TailLengthNegative then 2
    else if m == WeightNotPositive then 3
    else 4
  }

  /** Each rule has its own message, at its own position, and none is empty
      or one of the other outcomes' messages. */
  lemma MessagesDistinct()
    ensures forall r :: RulePosition(Message(r)) == Rank(r)
    ensures forall r, q :: Message(r) == Message(q) ==> r == q
    ensures forall r :: Message(r) in RuleMessages
    ensures forall r :: Message(r) != "" && Message(r) != DogExists && Message(r) != InvalidDogData
  {
    assert NameRequired[4] == 'n' && ColorRequired[4] == 'c';
    assert TailLengthNegative[0] == 'T' && WeightNotPositive[0] == 'W';
    assert DogExists[0] == 'A' && InvalidDogData[0] == 'I';
  }

  /** Every message sits strictly after the ones before it in rule order. */
  predicate InRuleOrder(ms: seq<string>) {
    forall i, j :: 0 <= i < j < |ms| ==> RulePosition(ms[i]) < RulePosition(ms[j])
  }

  /** Rules listed in declaration order, each at most once. */
  predicate RankOrdered(rules: seq<Rule>) {
    forall i, j :: 0 <= i < j < |rules| ==> Rank(rules[i]) < Rank(rules[j])
  }

  /** One rule's check: the rule when it fails, nothing when it holds. */
  function Check(r: Rule, d: Dog): (rules: seq<Rule>)
    ensures forall q :: q in rules <==> q == r && Fails(r, d)
    ensures RankOrdered(rules)
  {
    if Fails(r, d) then [r] else []
  }

  lemma OrderedConcat(a: seq<Rule>, b: seq<Rule>)
    requires RankOrdered(a) && RankOrdered(b)
    requires forall x, y :: x in a && y in b ==> Rank(x) < Rank(y)
    ensures RankOrdered(a + b)
  {
    var ab := a + b;
    forall i, j | 0 <= i < j < |ab|
      ensures Rank(ab[i]) < Rank(ab[j])
    {
      if j < |a| {
        assert ab[i] == a[i] && ab[j] == a[j];
      } else if i >= |a| {
        assert ab[i] == b[i - |a|] && ab[j] == b[j - |a|];
      } else {
        assert ab[i] in a && ab[j] in b;
      }
    }
  }

  /** The rules a dog fails, in declaration order. */
  function FailedRules(d: Dog): (rules: seq<Rule>)
    ensures forall r :: r in rules <==> Fails(r, d)
    ensures RankOrdered(rules)
  {
    var name, color := Check(NameRule, d), Check(ColorRule, d);
    var tail, weight := Check(TailLengthRule, d), Check(WeightRule, d);
    OrderedConcat(name, color);
    OrderedConcat(name + color, tail);
    OrderedConcat(name + color + tail, weight);
    name + color + tail + weight
  }

  /** The messages of a list of rules, one for one. A rule's message is in
      the list exactly when the rule is, and rules in declaration order give
      messages in rule order. */
  function Messages(rules: seq<Rule>): (ms: seq<string>)
    ensures |ms| == |rules|
    ensures forall r :: Message(r) in ms <==> r in rules
    ensures forall m :: m in ms ==> m in RuleMessages && m != "" && m != DogExists && m != InvalidDogData
    ensures RankOrdered(rules) ==> InRuleOrder(ms)
  {
    MessagesDistinct();
    var ms := seq(|rules|, i requires 0 <= i < |rules| => Message(rules[i]));
    assert forall r :: Message(r) in ms <==> r in rules by {
      forall r
        ensures Message(r) in ms <==> r in rules
      {
        if r in rules {
          var i :| 0 <= i < |rules| && rules[i] == r;
          assert ms[i] == Message(r);
        }
        if Message(r) in ms {
          var i :| 0 <= i < |ms| && ms[i] == Message(r);
          assert Message(rules[i]) == Message(r);
        }
      }
    }
    ms
  }

  /** The messages of the failed rules, in declaration order: name, color,
      tail length, weight. There are none exactly when the dog is valid. */
  function Errors(d: Dog): (errors: seq<string>)
    ensures errors == [] <==> IsValid(d)
  {
    Messages(FailedRules(d))
  }

  /** Each rule contributes its one message exactly when it fails, only rule
      messages appear, each at most once and in rule order, and no message is
      one the service uses for another outcome. */
  lemma ErrorsSpec(d: Dog)
    ensures NameRequired in Errors(d) <==> IsBlank(d.name)
    ensures ColorRequired in Errors(d) <==> IsBlank(d.color)
    ensures TailLengthNegative in Errors(d) <==> d.tailLength < 0
    ensures WeightNotPositive in Errors(d) <==> d.weight <= 0.0
    ensures forall m :: m in Errors(d) ==> m in RuleMessages
    ensures InRuleOrder(Errors(d))
    ensures forall i, j :: 0 <= i < j < |Errors(d)| ==> Errors(d)[i] != Errors(d)[j]
    ensures forall m :: m in Errors(d) ==> m != "" && m != DogExists && m != InvalidDogData
  {
    assert Message(NameRule) == NameRequired && Message(ColorRule) == ColorRequired;
    assert Message(TailLengthRule) == TailLengthNegative && Message(WeightRule) == WeightNotPositive;
  }

  /** The message the service reports: the earliest failed rule's. */
  lemma FirstErrorFollowsRuleOrder(d: Dog)
    requires !IsValid(d)
    ensures Errors(d)[0] ==
      if IsBlank(d.name) then NameRequired
      else if IsBlank(d.color) then ColorRequired
      else if d.tailLength < 0 then TailLengthNegative
      else WeightNotPositive
  {
  }

  /** A zero tail length passes, and so does a small positive weight. */
  lemma ZeroTailLengthAccepted(name: string, color: string)
    requires !IsBlank(name) && !IsBlank(color)
    ensures Errors(Dog(name, color, 0, 0.1)) == []
  {
  }

  /** A tail length of -1 fails with the tail-length message alone. */
  lemma NegativeTailLengthRejected(name: string, color: string)
    requires !IsBlank(name) && !IsBlank(color)
    ensures Errors(Dog(name, color, -1, 10.0)) == [TailLengthNegative]
  {
    assert FailedRules(Dog(name, color, -1, 10.0)) == [TailLengthRule];
  }

  /** A zero weight fails with the weight message alone. */
  lemma ZeroWeightRejected(name: string, color: string)
    requires !IsBlank(name) && !IsBlank(color)
    ensures Errors(Dog(name, color, 5, 0.0)) == [WeightNotPositive]
  {
    assert FailedRules(Dog(name, color, 5, 0.0)) == [WeightRule];
  }

  /** Both numeric rules failing give both messages, tail length first. */
  lemma NumericMessagesInRuleOrder(name: string, color: string)
    requires !IsBlank(name) && !IsBlank(color)
    ensures Errors(Dog(name, color, -1, 0.0)) == [TailLengthNegative, WeightNotPositive]
  {
    assert FailedRules(Dog(name, color, -1, 0.0)) == [TailLengthRule, WeightRule];
    var both := Messages([TailLengthRule, WeightRule]);
    assert both[0] == TailLengthNegative && both[1] == WeightNotPositive;
  }

  /** A name of spaces only is blank, an empty color too, and the reported
      message is the name rule's. */
  lemma BlankFieldsExample()
    ensures Errors(Dog(" ", "", -1, 0.0))[0] == NameRequired
  {
    assert IsBlank(" ");
  }

  /** A visible character makes a field non-blank. */
  lemma ExampleDogIsValid()
    ensures IsValid(Dog("Rex", "brown", 5, 10.0))
  {
    assert !IsWhiteSpace("Rex"[0]) && !IsWhiteSpace("brown"[0]);
  }
}
