/**
 Request fields and the string normalisation the account routes apply to them.

 A field of a JSON request body is either missing or a string. JavaScript
 treats the empty string as falsy, so "supplied" in the routes means "present
 and non-empty": that is `Truthy` below. `Lower` is the ASCII part of
 `String.prototype.toLowerCase`, applied character by character.
 */
module Text {

  /** A field of a request body: absent (undefined) or a string. */
  datatype Field = Absent | Given(text: string)

  /** JavaScript truthiness of a field: present and not the empty string. */
  predicate Truthy(f: Field)
  {
    f.Given? && f.text != ""
  }

  predicate IsUpper(c: char)
  {
    'A' <= c <= 'Z'
  }

  /** Lower-case form of one character; only 'A'..'Z' change. */
  function LowerChar(c: char): (d: char)
    ensures !IsUpper(d)
    ensures IsUpper(c) ==> d as int == c as int + 32
    ensures !IsUpper(c) ==> d == c
  {
    if IsUpper(c) then (c as int + 32) as char else c
  }

  /** A string with no upper-case letter: what every stored email should be. */
  predicate IsLower(s: string)
  {
    forall i :: 0 <= i < |s| ==> !IsUpper(s[i])
  }

  /** The string with every upper-case letter replaced by its lower-case form. */
  function Lower(s: string): (r: string)
    ensures |r| == |s|
    ensures IsLower(r)
    ensures forall i :: 0 <= i < |s| ==> r[i] == LowerChar(s[i])
  {
    if s == [] then [] else [LowerChar(s[0])] + Lower(s[1..])
  }

  /** A string that is already lower case is left alone by `Lower`. */
  lemma LowerKeepsLower(s: string)
    requires IsLower(s)
    ensures Lower(s) == s
  {
  }

  /** `Lower` is idempotent. */
  lemma LowerIdempotent(s: string)
    ensures Lower(Lower(s)) == Lower(s)
  {
    LowerKeepsLower(Lower(s));
  }

  /**
   Two strings that differ only in the case of their letters have the same
   lower-case form, which is why the routes compare emails through `Lower`.
   */
  lemma LowerIgnoresCase(a: string, b: string)
    requires |a| == |b|
    requires forall i :: 0 <= i < |a| ==> LowerChar(a[i]) == LowerChar(b[i])
    ensures Lower(a) == Lower(b)
  {
  }
}
