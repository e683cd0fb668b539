/** The game `Character`: its name, and the damage rules that change its
    life. The same struct and rules appear in three crates; only the name
    format of the local struct in `rust_08_struct` differs. */
module Game {
  import opened Ints

  /** `max(damage - armor, 0)`: the armor absorbs up to its value, and an
      attack never heals. */
  function Damage(damage: int, armor: int): (d: int)
    ensures d >= 0 && d >= damage - armor
    ensures d == 0 || d == damage - armor
  {
    if damage - armor > 0 then damage - armor else 0
  }

  class Character {
    var firstName: string
    var lastName: string
    var className: string
    var life: i32
    var armor: i32
    var attack: i32

    /** The struct literal `Character { … }`. */
    constructor (firstName: string, lastName: string, className: string, life: i32, armor: i32, attack: i32)
      ensures this.firstName == firstName && this.lastName == lastName && this.className == className
      ensures this.life == life && this.armor == armor && this.attack == attack
    {
      this.firstName := firstName;
      this.lastName := lastName;
      this.className := className;
      this.life := life;
      this.armor := armor;
      this.attack := attack;
    }

    /** `Character::create_wizard`: the attack argument is ignored. */
    constructor Wizard(firstName: string, lastName: string, ignoredAttack: i32)
      ensures this.firstName == firstName && this.lastName == lastName && className == "wizard"
      ensures life == 25 && armor == 2 && attack == 6
    {
      this.firstName := firstName;
      this.lastName := lastName;
      className := "wizard";
      life := 25;
      armor := 2;
      attack := 6;
    }

    /** `get_name` in `rustgdb_1` and `rust_09_traits`: `[class] first last`,
        which holds the class and ends with the plain name. */
    function GetName(): (n: string)
      reads this
      ensures |n| == |className| + 3 + |PlainName()|
      ensures n[0] == '[' && n[1..|className| + 1] == className && n[|className| + 1..|className| + 3] == "] "
      ensures n[|className| + 3..] == PlainName()
    {
      "[" + className + "] " + PlainName()
    }

    /** `get_name` of the local struct in `rust_08_struct`: `first last`. */
    function PlainName(): (n: string)
      reads this
      ensures |n| == |firstName| + 1 + |lastName|
      ensures n[..|firstName|] == firstName && n[|firstName|] == ' ' && n[|firstName| + 1..] == lastName
    {
      firstName + " " + lastName
    }

    /** `is_dead`: only a life of exactly 0 counts, so a hit that takes life
        below 0 leaves the character "alive". */
    predicate IsDead()
      reads this
      ensures IsDead() ==> life == 0
      ensures life < 0 ==> !IsDead()
    {
      life == 0
    }

    /** The `i32` arithmetic of `take_damages` stays in range: `damage -
        armor` and the subtraction from `life` both panic on overflow. */
    predicate CanTake(damage: i32)
      reads this
    {
      InI32(damage - armor) && InI32(life - Damage(damage, armor))
    }

    /** `take_damages`: life goes down by what the armor does not absorb,
        and nothing else changes. Life may go below 0, which `is_dead` then
        does not see: this is the bug `take_damages` is marked with. */
    method TakeDamages(damage: i32)
      requires CanTake(damage)
      modifies this
      ensures life == old(life) - Damage(damage, old(armor)) && life <= old(life)
      ensures firstName == old(firstName) && lastName == old(lastName) && className == old(className)
      ensures armor == old(armor) && attack == old(attack)
    {
      var d := damage - armor;
      life := life - (if d > 0 then d else 0);
    }

    /** `attacked`: this character takes the other's attack. The borrow
        rules keep `other` distinct from `self`. */
    method Attacked(other: Character)
      requires other != this && CanTake(other.attack)
      modifies this
      ensures life == old(life) - Damage(other.attack, old(armor))
      ensures firstName == old(firstName) && lastName == old(lastName) && className == old(className)
      ensures armor == old(armor) && attack == old(attack)
      ensures other.life == old(other.life) && other.attack == old(other.attack)
    {
      TakeDamages(other.attack);
    }
  }

  /** The free `create_wizard` of `rustgdb_1`. */
  method CreateWizard() returns (c: Character)
    ensures fresh(c) && c.firstName == "Merlin" && c.lastName == "The Wizard" && c.className == "wizard"
    ensures c.life == 25 && c.armor == 2 && c.attack == 6
  {
    c := new Character.Wizard("Merlin", "The Wizard", 500);
  }

  /** The test `attack_1`: 100 damage through no armor kills a character
      with life 100. */
  method AttackTest() returns (dead: bool)
    ensures dead
  {
    var c1 := new Character("f1", "l1", "c1", 100, 0, 1);
    var c2 := new Character("f2", "l2", "c2", 200, 0, 100);
    c1.Attacked(c2);
    dead := c1.IsDead();
  }

  /** `main` of `rustgdb_1`: three hits of 96 against armor 5 take life
      105 to 14, -77 and -168, and `is_dead` never holds. */
  method HeroScenario() returns (lives: seq<i32>, dead: seq<bool>)
    ensures lives == [14, -77, -168] && dead == [false, false, false]
  {
    var hero := new Character("Conan", "The Barbarian", "Barbarian", 105, 5, 86);
    var badGuy := new Character("Dark Conan", "The Dark Barbarian", "Barbarian", 165, 4, 96);
    hero.Attacked(badGuy);
    lives, dead := [hero.life], [hero.IsDead()];
    hero.Attacked(badGuy);
    lives, dead := lives + [hero.life], dead + [hero.IsDead()];
    hero.Attacked(badGuy);
    lives, dead := lives + [hero.life], dead + [hero.IsDead()];
  }

  /** `main` of `rust_08_struct`: life 65 and armor 5, then 15 damage and an
      attack by the wizard (attack 6) leave 55 and then 54. */
  method ConanScenario() returns (afterDamage: i32, afterAttack: i32, name: string)
    ensures afterDamage == 55 && afterAttack == 54 && name == "wizzy bar"
  {
    var conan := new Character("Conan", "The Barbarian", "Barbarian", 65, 5, 86);
    conan.attack := 82;
    conan.TakeDamages(15);
    afterDamage := conan.life;
    var evilWizard := new Character.Wizard("wizzy", "bar", 32);
    name := evilWizard.PlainName();
    conan.Attacked(evilWizard);
    afterAttack := conan.life;
  }
}
