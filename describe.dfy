/** The `Describe` trait of `rust_09_traits`, for its two implementors: the
    game `Character` and an `Animal`. */
module DescribeTrait {
  import opened Ints
  import opened Decimal
  import opened Game
  import opened Wrappers

  datatype Animal = Animal(name: string, className: string)

  /** A value of some type that implements `Describe`. */
  datatype Describable = OfCharacter(c: Character) | OfAnimal(a: Animal)

  /** `Describe for Character`: the name as `get_name` writes it, then the
      class and the three numbers. */
  function DescribeCharacter(c: Character): (s: string)
    reads c
    ensures |c.GetName()| < |s| && s[..|c.GetName()|] == c.GetName()
  {
    DescribeText(c.GetName(), c.className, IntToString(c.attack), IntToString(c.armor), IntToString(c.life))
  }

  /** The `format!` of `Describe for Character`, with the numbers already
      written in decimal. */
  function DescribeText(name: string, cls: string, atk: string, arm: string, life: string): (s: string)
    ensures |name| < |s| && s[..|name|] == name
  {
    var rest := ", class: " + cls + ", attack: " + atk + ", armor: " + arm + ", life: " + life;
    assert (name + rest)[..|name|] == name;
    name + rest
  }

  /** `Describe for Animal`: the name, then the class, each behind its
      label. */
  function DescribeAnimal(a: Animal): (s: string)
    ensures |s| == 17 + |a.name| + |a.className|
    ensures s[..8] == "Animal: " && s[8..8 + |a.name|] == a.name
    ensures s[8 + |a.name|..17 + |a.name|] == ", class: "
    ensures s[|s| - |a.className|..] == a.className
  {
    "Animal: " + a.name + ", class: " + a.className
  }

  /** `describe`, dispatched to the implementation of the value's type; the
      text shows which: a character's starts with `[`, an animal's with
      `Animal: `. */
  function Describe(d: Describable): (s: string)
    reads if d.OfCharacter? then {d.c} else {}
    ensures s != [] && (s[0] == '[' <==> d.OfCharacter?)
    ensures d.OfAnimal? ==> 8 <= |s| && s[..8] == "Animal: "
  {
    match d
    case OfCharacter(c) => DescribeCharacter(c)
    case OfAnimal(a) => DescribeAnimal(a)
  }

  /** `describe_with_default`: neither type overrides the default. */
  function DescribeWithDefault(d: Describable): string
  {
    "Dunno!"
  }

  /** `omni_describe`, `omni_describe_2` and `omni_describe_3`: the same call
      under three ways of writing the trait bound. */
  function OmniDescribe(d: Describable): (s: string)
    reads if d.OfCharacter? then {d.c} else {}
    ensures d.OfCharacter? ==> s == DescribeCharacter(d.c)
    ensures d.OfAnimal? ==> s == DescribeAnimal(d.a)
  {
    Describe(d)
  }

  /** `omni_describe_4`. */
  function OmniDescribe4(d1: Describable, d2: Describable): string
    reads if d1.OfCharacter? then {d1.c} else {}, if d2.OfCharacter? then {d2.c} else {}
  {
    "entity: " + Describe(d1) + "\nentity2: " + Describe(d2)
  }

  /** Neither implementor overrides `describe_with_default`, so the text is
      the same for every value. */
  lemma DefaultIgnoresValue(d1: Describable, d2: Describable)
    ensures DescribeWithDefault(d1) == DescribeWithDefault(d2) == "Dunno!"
  {
  }

  /** `make_lazy_cat`. */
  function MakeLazyCat(): (a: Animal)
    ensures DescribeAnimal(a) == "Animal: garfield, class: cat"
  {
    Animal("garfield", "cat")
  }

  /** A character's description ends with its life, written so that
      `parse::<i32>` reads the number back. */
  lemma DescribedLifeReadsBack(c: Character)
    ensures var text := DescribeCharacter(c);
            var tail := IntToString(c.life);
            |tail| < |text| && text[|text| - |tail|..] == tail && ParseI32(tail) == Ok(c.life)
  {
    ParseIntToString(c.life);
  }

  /** Every field of a character's description behind its label, in the
      order `describe` writes them; attack and armor are written in decimal,
      which `parse::<i32>` reads back. */
  lemma DescribedFields(c: Character)
    ensures DescribeLayout(DescribeCharacter(c), c.GetName(), c.className,
                           IntToString(c.attack), IntToString(c.armor), IntToString(c.life))
    ensures ParseI32(IntToString(c.attack)) == Ok(c.attack) && ParseI32(IntToString(c.armor)) == Ok(c.armor)
  {
    FieldsLayout(c.GetName(), c.className, IntToString(c.attack), IntToString(c.armor), IntToString(c.life));
    ParseIntToString(c.attack);
    ParseIntToString(c.armor);
  }

  /** `s` is `name, class: cls, attack: atk, armor: arm, life: life`: each
      field behind its label, in this order, and nothing after the life. */
  predicate DescribeLayout(s: string, name: string, cls: string, atk: string, arm: string, life: string)
  {
    var cl := |name| + 9 + |cls|;
    var lf := cl + 10 + |atk| + 9 + |arm|;
    Labelled(s, |name|, ", class: ", cls) &&
    Labelled(s, cl, ", attack: ", atk) &&
    Labelled(s, cl + 10 + |atk|, ", armor: ", arm) &&
    Labelled(s, lf, ", life: ", life) && |s| == lf + 8 + |life|
  }

  /** `tag` sits in `s` at `k`, and `field` right after it. */
  predicate Labelled(s: string, k: nat, tag: string, field: string)
  {
    k + |tag| + |field| <= |s| &&
    s[k..k + |tag|] == tag && s[k + |tag|..k + |tag| + |field|] == field
  }

  /** Where each part of the `describe` format sits in the text. */
  lemma FieldsLayout(name: string, cls: string, atk: string, arm: string, life: string)
    ensures DescribeLayout(DescribeText(name, cls, atk, arm, life), name, cls, atk, arm, life)
  {
    var p1 := ", class: " + cls;
    var p2 := p1 + ", attack: ";
    var p3 := p2 + atk;
    var p4 := p3 + ", armor: ";
    var p5 := p4 + arm;
    var rest := p5 + ", life: " + life;
    var s := name + rest;
    assert rest[0..|p5| + 8] == p5 + ", life: ";
    Parts(rest, 0, p5, ", life: ");
    Slice(name, rest, 0, |p5|);
    Slice(name, rest, |p5|, |p5| + 8);
    assert rest[|p5| + 8..] == life;
    Slice(name, rest, |p5| + 8, |rest|);
    Parts(s, |name|, p4, arm);
    Parts(s, |name|, p3, ", armor: ");
    Parts(s, |name|, p2, atk);
    Parts(s, |name|, p1, ", attack: ");
    Parts(s, |name|, ", class: ", cls);
  }

  /** A slice of `a + b` that lies in `b`. */
  lemma Slice(a: string, b: string, i: nat, j: nat)
    requires i <= j <= |b|
    ensures (a + b)[|a| + i..|a| + j] == b[i..j]
  {
  }

  /** Where `x + y` sits in `s` from `k`, `x` and `y` sit next to each other. */
  lemma Parts(s: string, k: nat, x: string, y: string)
    requires k + |x| + |y| <= |s| && s[k..k + |x| + |y|] == x + y
    ensures s[k..k + |x|] == x && s[k + |x|..k + |x| + |y|] == y
  {
    assert s[k..k + |x|] == s[k..k + |x| + |y|][..|x|];
    assert s[k + |x|..k + |x| + |y|] == s[k..k + |x| + |y|][|x|..];
  }

  /** The two-entity description holds both descriptions, each behind its
      label and separated by one line break. */
  lemma OmniDescribe4Parts(d1: Describable, d2: Describable)
    ensures var text := OmniDescribe4(d1, d2);
            var n1 := 8 + |Describe(d1)|;
            |text| == n1 + 10 + |Describe(d2)| &&
            Labelled(text, 0, "entity: ", Describe(d1)) && Labelled(text, n1, "\nentity2: ", Describe(d2))
  {
    Concat4Parts("entity: ", Describe(d1), "\nentity2: ", Describe(d2));
  }

  /** Where the four parts of `p + a + q + b` sit. */
  lemma Concat4Parts(p: string, a: string, q: string, b: string)
    ensures var t := p + a + q + b;
            |t| == |p| + |a| + |q| + |b| && Labelled(t, 0, p, a) && Labelled(t, |p| + |a|, q, b)
  {
    var t := p + a + q + b;
    assert t == (p + a) + (q + b);
    assert (p + a)[|p|..] == a && (p + a)[..|p|] == p;
    assert (q + b)[..|q|] == q && (q + b)[|q|..] == b;
    assert t[0..|p|] == t[..|p|];
  }
}
