# Personnel: the `Employe` entity

A Dafny model of `Employe`, the employee of a league (`Ligue`) in the personnel
manager of the M2L leagues. One employee, attached to no league, is the root
(super-user) of the facility (`GestionPersonnel`); every other employee belongs to
a league, and one employee of each league is its administrator.

The model keeps the source's shape: `Employe` is a class whose setters are methods
that change one field each (`modifies this`nom` and so on), whose queries
(`EstAdmin`, `EstRoot`, `CheckPassword`, `CompareTo`, `ToString`) are functions that
read fields, and whose `Remove` changes another object, the league. Exceptions
become results: `Result`/`Outcome` values carrying `InvalidDepartureDate` (the
`IllegalArgumentException` of `setDateDepart`) or `CannotRemoveRoot`
(`ImpossibleDeSupprimerRoot`).

Files:

- `results.dfy` — `Option` (nullable references), `Result` and `Outcome` (thrown exceptions).
- `java_string.dfy` — `String.compareTo` as a recursive function, a reference
  definition of the lexicographic order (`LexLess`), and the lemmas that tie them:
  the value at the first difference, the value for a prefix, agreement with
  `LexLess` in both directions, antisymmetry and transitivity.
- `personnel.dfy` — the class `Employe`, and minimal stand-ins for `Ligue` (a label,
  an `administrateur` pointer, a roster `employes`) and `GestionPersonnel` (the
  `root` pointer and the gateway insert, which returns an arbitrary `int`).
- `scenarios.dfy` — clients that use only the contracts: a plain member and then an
  administrator leave a league (the root takes the league over), the root cannot be
  removed, reversed dates are rejected at construction and by `SetDateDepart`.

Dates are day numbers (`int`), `LocalDate.isBefore` is strict `<`, and a `null`
date is `None`. The two Java constructors become a Dafny constructor `Init`
(fields, then every setter up to the arrival date, Employe.java:53-60) and two
static methods returning a `Result`: `Local` (adds the departure-date check of
line 61, so an invalid range makes construction fail) and `Create` (runs `Local`
with id -1, then takes the id from the gateway insert).

The model follows the code: `remove()` reassigns the administrator before the
league removal and does no rollback, and `setDateArrive` performs no check despite
its `@throws IllegalArgumentException` comment (Employe.java:204-212), so
"departure after arrival" is not a class invariant; only `SetDateDepart`
establishes it (`DatesOrdered`).

## Model

| member | source | states |
|---|---|---|
| `JavaString.CompareTo` | Personnel/src/personnel/Employe.java:259 | the string comparison is zero exactly when the two strings are equal |
| `JavaString.CompareToAtFirstDifference` | Personnel/src/personnel/Employe.java:259 | at the first index where the strings differ, the result is the difference of the two characters there |
| `JavaString.CompareToOfPrefix` | Personnel/src/personnel/Employe.java:259 | when one string is a prefix of the other, the result is the difference of the lengths |
| `JavaString.CompareToNegativeIsLexLess` | Personnel/src/personnel/Employe.java:259 | the result is negative if and only if the first string is lexicographically smaller (reference definition) |
| `JavaString.CompareToAntisymmetric` | Personnel/src/personnel/Employe.java:259 | swapping the arguments negates the result |
| `JavaString.CompareToTransitive` | Personnel/src/personnel/Employe.java:259 | a < b and b < c imply a < c |
| `JavaString.LexLessOfTails` | Personnel/src/personnel/Employe.java:259 | with equal first characters, the lexicographic order is that of the tails |
| `Personnel.Employe.Init` | Personnel/src/personnel/Employe.java:52-60 | stores the facility and the given id, and every setter up to the arrival date leaves its argument in its field; no departure date yet |
| `Personnel.Employe.Local` | Personnel/src/personnel/Employe.java:52-62 | succeeds if and only if the departure date is absent or strictly after a set arrival date; on success a fresh employee with the given id and all given fields, dates ordered; otherwise fails with the invalid-date error |
| `Personnel.Employe.Create` | Personnel/src/personnel/Employe.java:34-38 | same acceptance rule and error as the local constructor; on success a fresh employee with all given fields (its id is the gateway's answer) |
| `Personnel.Employe.EstAdmin` | Personnel/src/personnel/Employe.java:74-77 | true exactly when the league's administrator is this very object (reference equality, not field equality) |
| `Personnel.Employe.EstRoot` | Personnel/src/personnel/Employe.java:84-87 | true exactly when the facility's root is this very object (reference equality, not field equality) |
| `Personnel.GestionPersonnel.Insert` | Personnel/src/personnel/Employe.java:37 | stand-in for the gateway insert: returns an arbitrary `int`, changing neither the facility nor the employee |
| `Personnel.AdminIsByIdentity` | Personnel/src/personnel/Employe.java:74-77 | administrator status is by reference: a distinct object with identical fields is not the administrator |
| `Personnel.RootIsByIdentity` | Personnel/src/personnel/Employe.java:84-87 | root status is by reference: a distinct object with identical fields is not the root |
| `Personnel.Employe.SetNom` | Personnel/src/personnel/Employe.java:104-107 | the name becomes the argument; no other field changes |
| `Personnel.Employe.SetPrenom` | Personnel/src/personnel/Employe.java:124-127 | the first name becomes the argument; no other field changes |
| `Personnel.Employe.SetMail` | Personnel/src/personnel/Employe.java:144-147 | the mail becomes the argument; no other field changes |
| `Personnel.Employe.CheckPassword` | Personnel/src/personnel/Employe.java:157-160 | true exactly when the candidate has the stored password's length and the same character at every position |
| `Personnel.Employe.SetPassword` | Personnel/src/personnel/Employe.java:167-170 | the password becomes the argument, untransformed; no other field changes |
| `Personnel.Employe.SetLigue` | Personnel/src/personnel/Employe.java:191-194 | the league becomes the argument; no other field changes |
| `Personnel.Employe.SetDateArrive` | Personnel/src/personnel/Employe.java:210-212 | the arrival date becomes the argument with no check against the departure date; no other field changes |
| `Personnel.Employe.SetDateDepart` | Personnel/src/personnel/Employe.java:228-234 | accepted if and only if the date is absent or strictly after a set arrival date; on acceptance the date is stored and the dates are ordered; on refusal the invalid-date error and the departure date unchanged; no other field changes |
| `Personnel.Employe.Remove` | Personnel/src/personnel/Employe.java:243-254 | fails with the root error exactly for the root, changing no league; otherwise the employee leaves its league's roster and the league's administrator becomes the root if it was this employee, else stays; only that league changes |
| `Personnel.Ligue.SetAdministrateur` | Personnel/src/personnel/Employe.java:249 | stand-in: the league's administrator becomes the argument |
| `Personnel.Ligue.Remove` | Personnel/src/personnel/Employe.java:250 | stand-in: the employee is taken out of the roster, nothing else changes |
| `Personnel.Employe.CompareTo` | Personnel/src/personnel/Employe.java:256-263 | zero exactly when names and first names are equal; negative exactly when (name, first name) is lexicographically smaller (reference definition) |
| `Personnel.CompareToAntisymmetric` | Personnel/src/personnel/Employe.java:256-263 | swapping the two employees negates the comparison |
| `Personnel.CompareToTransitive` | Personnel/src/personnel/Employe.java:256-263 | a ≤ b and b ≤ c imply a ≤ c |
| `Personnel.CompareToTotal` | Personnel/src/personnel/Employe.java:256-263 | any two employees compare at most zero one way or the other |
| `Personnel.Employe.ToString` | Personnel/src/personnel/Employe.java:265-274 | the text is name, first name and mail separated by spaces and followed by " (", then "super-utilisateur" for the root or the league's label otherwise, then ")" |

## Left out

- Getters (`getNom`, `getPrenom`, `getMail`, `getPassword`, `getLigue`, `getDateArrive`, `getDateDepart`): they are the fields themselves, read directly.
- Persistence failures (`SauvegardeImpossible`): the gateway insert and the league removal always succeed here, so no failure path or rollback is modelled; the code reassigns the administrator before the league removal, and nothing here claims all-or-nothing removal.
- Personnel.Employe.Create: does not state the new id, because the gateway insert is modelled as returning an arbitrary `int`.
- `Ligue.java` and `GestionPersonnel.java` are not part of this model: the stand-ins hold only what `Employe` uses; any membership check in `Ligue.setAdministrateur`, the gateway call in `Ligue.remove`, and the real `Ligue.toString` (modelled as the league's name) are not modelled.
- `Passerelle` is reduced to the insert that gives the id; its other operations are not used by `Employe`.
- Java serialisation (`Serializable`, `serialVersionUID`): plumbing, no behaviour.
- `null` strings: names, mail and password are never `null` here. In Java, `compareTo` throws a `NullPointerException` on a `null` name or first name (Employe.java:259, 262); `checkPassword` throws only when the stored password is `null` and returns false for a `null` candidate (Employe.java:159); `toString` does not throw but renders a `null` name, first name or mail as the text "null" (Employe.java:268). None of these cases is modelled.
- Personnel.Employe.Remove: requires a non-root employee to have a league, where Java would throw a `NullPointerException`; a non-root employee always has one.
- Personnel.Employe.ToString: requires a non-root employee to have a league, for the same reason.
- Characters are Unicode scalar values, while Java compares UTF-16 code units. For characters outside the Basic Multilingual Plane both the order and the values differ: Java counts such a character as two units in the length difference (`"😀".compareTo("")` is 2 in Java, 1 in `JavaString.CompareTo`), and Java sorts a supplementary character (its high surrogate) before U+E000–U+FFFF, while here it sorts after them.
