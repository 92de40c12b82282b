/**
 * Package `personnel`: the employee of a league (`Employe`) together with the two
 * collaborators it talks to, reduced to what `Employe` uses of them: a league
 * (`Ligue`) with its administrator and its roster, and the facility
 * (`GestionPersonnel`) that owns the root employee and reaches the gateway.
 */
module Personnel {
  import opened Results
  import JavaString

  /** A calendar date (`LocalDate`) as a day number. */
  type Date = int

  /** `LocalDate.isBefore`: strictly earlier. */
  predicate IsBefore(a: Date, b: Date) {
    a < b
  }

  /** The exceptions `Employe` throws. */
  datatype Error =
    | InvalidDepartureDate  // IllegalArgumentException("La date de départ est invalide.")
    | CannotRemoveRoot      // ImpossibleDeSupprimerRoot

  /** What the textual form shows in place of a league for the root employee. */
  const SuperUserLabel: string := "super-utilisateur"

  /**
   * The rule `setDateDepart` enforces between an arrival and a departure date:
   * no departure at all, or an arrival that is set and strictly earlier.
   */
  ghost predicate DepartureAllowed(arrive: Option<Date>, depart: Option<Date>) {
    depart.None? || (arrive.Some? && arrive.value < depart.value)
  }

  /**
   * Lexicographic order on (name, first name) pairs, stated with the reference
   * order on strings rather than with `compareTo`.
   */
  ghost predicate NameLess(nom: string, prenom: string, nom': string, prenom': string) {
    JavaString.LexLess(nom, nom') || (nom == nom' && JavaString.LexLess(prenom, prenom'))
  }

  /** The facility: only its root employee and its gateway insert are used here. */
  class GestionPersonnel {
    var root: Employe?

    constructor ()
      ensures root == null
    {
      root := null;
    }

    /**
     * The gateway insert: the identifier the store gives to a new employee, any
     * `int`; neither the facility nor the employee changes.
     */
    method Insert(e: Employe) returns (id: int)
      ensures unchanged(this, e)
    {
      id :| true;
    }
  }

  /** A league: its label, its administrator and its roster. */
  class Ligue {
    var nom: string
    var administrateur: Employe?
    var employes: set<Employe>

    constructor (nom: string, administrateur: Employe?)
      ensures this.nom == nom && this.administrateur == administrateur && employes == {}
    {
      this.nom := nom;
      this.administrateur := administrateur;
      employes := {};
    }

    /** The league's label, as shown in an employee's textual form. */
    function ToString(): string
      reads this
    {
      nom
    }

    method SetAdministrateur(administrateur: Employe?)
      modifies this`administrateur
      ensures this.administrateur == administrateur
    {
      this.administrateur := administrateur;
    }

    /** Takes `employe` out of the roster. */
    method Remove(employe: Employe, ligue: Ligue)
      modifies this`employes
      ensures employes == old(employes) - {employe}
    {
      employes := employes - {employe};
    }
  }

  class Employe {
    var nom: string
    var prenom: string
    var password: string
    var mail: string
    var id: int
    var dateArrive: Option<Date>
    var dateDepart: Option<Date>
    var ligue: Ligue?
    const gestionPersonnel: GestionPersonnel

    /** Every field but `id` holds the given value. */
    ghost predicate HasFields(gestionPersonnel: GestionPersonnel, ligue: Ligue?, nom: string, prenom: string,
                              mail: string, password: string, dateArrive: Option<Date>, dateDepart: Option<Date>)
      reads this
    {
      && this.gestionPersonnel == gestionPersonnel && this.ligue == ligue
      && this.nom == nom && this.prenom == prenom && this.mail == mail && this.password == password
      && this.dateArrive == dateArrive && this.dateDepart == dateDepart
    }

    /** The departure date, when there is one, comes strictly after the arrival date. */
    ghost predicate DatesOrdered()
      reads this
    {
      DepartureAllowed(dateArrive, dateDepart)
    }

    /**
     * The first part of the local constructor: store the facility and the id, then
     * run every setter up to the arrival date; the departure date is still absent.
     */
    constructor Init(gestionPersonnel: GestionPersonnel, id: int, ligue: Ligue?, nom: string, prenom: string,
                     mail: string, password: string, dateArrive: Option<Date>)
      ensures this.id == id
      ensures HasFields(gestionPersonnel, ligue, nom, prenom, mail, password, dateArrive, None)
    {
      this.gestionPersonnel := gestionPersonnel;
      this.id := id;
      dateDepart := None;
      new;
      SetLigue(ligue);
      SetNom(nom);
      SetPrenom(prenom);
      SetMail(mail);
      SetPassword(password);
      SetDateArrive(dateArrive);
    }

    /**
     * The local constructor: builds an employee with a known id without asking the
     * gateway, and fails as `setDateDepart` does when the dates are out of order.
     */
    static method Local(gestionPersonnel: GestionPersonnel, id: int, ligue: Ligue?, nom: string, prenom: string,
                        mail: string, password: string, dateArrive: Option<Date>, dateDepart: Option<Date>)
      returns (r: Result<Employe, Error>)
      ensures r.Success? <==> DepartureAllowed(dateArrive, dateDepart)
      ensures r.Failure? ==> r.error == InvalidDepartureDate
      ensures r.Success? ==> fresh(r.value) && r.value.id == id && r.value.DatesOrdered()
      ensures r.Success? ==> r.value.HasFields(gestionPersonnel, ligue, nom, prenom, mail, password, dateArrive, dateDepart)
    {
      var e := new Employe.Init(gestionPersonnel, id, ligue, nom, prenom, mail, password, dateArrive);
      var o := e.SetDateDepart(dateDepart);
      if o.Fail? {
        return Failure(o.error);
      }
      return Success(e);
    }

    /**
     * The inserting constructor: the local constructor with id -1, after which the
     * id becomes whatever the gateway insert returns.
     */
    static method Create(gestionPersonnel: GestionPersonnel, ligue: Ligue?, nom: string, prenom: string,
                         mail: string, password: string, dateArrive: Option<Date>, dateDepart: Option<Date>)
      returns (r: Result<Employe, Error>)
      ensures r.Success? <==> DepartureAllowed(dateArrive, dateDepart)
      ensures r.Failure? ==> r.error == InvalidDepartureDate
      ensures r.Success? ==> fresh(r.value) && r.value.DatesOrdered()
      ensures r.Success? ==> r.value.HasFields(gestionPersonnel, ligue, nom, prenom, mail, password, dateArrive, dateDepart)
    {
      r := Local(gestionPersonnel, -1, ligue, nom, prenom, mail, password, dateArrive, dateDepart);
      if r.Success? {
        var e := r.value;
        var newId := gestionPersonnel.Insert(e);
        e.id := newId;
      }
    }

    /** True exactly when this very object, not an equal-looking one, administers `ligue`. */
    predicate EstAdmin(ligue: Ligue): (b: bool)
      reads ligue
      ensures b <==> ligue.administrateur == this
    {
      ligue.administrateur == this
    }

    /** True exactly when this very object is the facility's root. */
    predicate EstRoot(): (b: bool)
      reads gestionPersonnel
      ensures b <==> gestionPersonnel.root == this
    {
      gestionPersonnel.root == this
    }

    method SetNom(nom: string)
      modifies this`nom
      ensures this.nom == nom
    {
      this.nom := nom;
    }

    method SetPrenom(prenom: string)
      modifies this`prenom
      ensures this.prenom == prenom
    {
      this.prenom := prenom;
    }

    method SetMail(mail: string)
      modifies this`mail
      ensures this.mail == mail
    {
      this.mail := mail;
    }

    /** Accepts exactly the stored password, character for character. */
    function CheckPassword(password: string): (b: bool)
      reads this
      ensures b <==> |password| == |this.password| && forall i :: 0 <= i < |password| ==> password[i] == this.password[i]
    {
      this.password == password
    }

    method SetPassword(password: string)
      modifies this`password
      ensures this.password == password
    {
      this.password := password;
    }

    method SetLigue(ligue: Ligue?)
      modifies this`ligue
      ensures this.ligue == ligue
    {
      this.ligue := ligue;
    }

    /** Stores the arrival date without comparing it with the departure date. */
    method SetDateArrive(dateArrive: Option<Date>)
      modifies this`dateArrive
      ensures this.dateArrive == dateArrive
    {
      this.dateArrive := dateArrive;
    }

    /**
     * Accepts an absent departure date, or one strictly after a set arrival date;
     * anything else is refused and leaves the departure date as it was.
     */
    method SetDateDepart(dateDepart: Option<Date>) returns (o: Outcome<Error>)
      modifies this`dateDepart
      ensures o.Pass? <==> DepartureAllowed(dateArrive, dateDepart)
      ensures o.Pass? ==> this.dateDepart == dateDepart && DatesOrdered()
      ensures o.Fail? ==> o.error == InvalidDepartureDate && this.dateDepart == old(this.dateDepart)
    {
      if dateDepart.None? || (dateArrive.Some? && IsBefore(dateArrive.value, dateDepart.value)) {
        this.dateDepart := dateDepart;
        o := Pass;
      } else {
        o := Fail(InvalidDepartureDate);
      }
    }

    /**
     * Removes the employee. The root cannot be removed. An administrator first hands
     * its league over to the root; then the employee leaves its league's roster.
     */
    method Remove() returns (o: Outcome<Error>)
      requires !EstRoot() ==> ligue != null
      modifies ligue
      ensures o.Fail? <==> EstRoot()
      ensures o.Fail? ==> o.error == CannotRemoveRoot && (ligue != null ==> unchanged(ligue))
      ensures o.Pass? ==> ligue.employes == old(ligue.employes) - {this}
      ensures o.Pass? ==> ligue.administrateur == if old(EstAdmin(ligue)) then gestionPersonnel.root else old(ligue.administrateur)
      ensures o.Pass? ==> ligue.nom == old(ligue.nom)
    {
      var root := gestionPersonnel.root;
      if this != root {
        if EstAdmin(ligue) {
          ligue.SetAdministrateur(root);
        }
        ligue.Remove(this, ligue);
        o := Pass;
      } else {
        o := Fail(CannotRemoveRoot);
      }
    }

    /** Orders employees by name, then by first name. */
    function CompareTo(autre: Employe): (r: int)
      reads this, autre
      ensures r == 0 <==> nom == autre.nom && prenom == autre.prenom
      ensures r < 0 <==> NameLess(nom, prenom, autre.nom, autre.prenom)
    {
      JavaString.CompareToNegativeIsLexLess(nom, autre.nom);
      JavaString.CompareToNegativeIsLexLess(prenom, autre.prenom);
      var cmp := JavaString.CompareTo(nom, autre.nom);
      if cmp != 0 then cmp else JavaString.CompareTo(prenom, autre.prenom)
    }

    /** The textual form: name, first name and mail, then the league's label or the super-user mark in brackets. */
    function ToString(): (s: string)
      reads this, gestionPersonnel, ligue
      requires EstRoot() || ligue != null
      ensures var head := nom + " " + prenom + " " + mail + " (";
              && |s| > |head| && s[..|head|] == head && s[|s| - 1] == ')'
              && s[|head|..|s| - 1] == if EstRoot() then SuperUserLabel else ligue.ToString()
    {
      var res := nom + " " + prenom + " " + mail + " (";
      var res := if EstRoot() then res + SuperUserLabel else res + ligue.ToString();
      res + ")"
    }
  }

  /** Two distinct objects with the same fields are never both the administrator of a league. */
  lemma AdminIsByIdentity(a: Employe, b: Employe, ligue: Ligue)
    requires a != b && a.HasFields(b.gestionPersonnel, b.ligue, b.nom, b.prenom, b.mail, b.password, b.dateArrive, b.dateDepart)
    requires a.EstAdmin(ligue)
    ensures !b.EstAdmin(ligue)
  {
  }

  /** Two distinct objects with the same fields are never both the root of their facility. */
  lemma RootIsByIdentity(a: Employe, b: Employe)
    requires a != b && a.HasFields(b.gestionPersonnel, b.ligue, b.nom, b.prenom, b.mail, b.password, b.dateArrive, b.dateDepart)
    requires a.EstRoot()
    ensures !b.EstRoot()
  {
  }

  /** Swapping the two employees negates the comparison. */
  lemma CompareToAntisymmetric(a: Employe, b: Employe)
    ensures a.CompareTo(b) == -b.CompareTo(a)
  {
    JavaString.CompareToAntisymmetric(a.nom, b.nom);
    JavaString.CompareToAntisymmetric(a.prenom, b.prenom);
  }

  /** The order "compares at most zero" is transitive. */
  lemma CompareToTransitive(a: Employe, b: Employe, c: Employe)
    requires a.CompareTo(b) <= 0 && b.CompareTo(c) <= 0
    ensures a.CompareTo(c) <= 0
  {
  }

  /** Any two employees are comparable one way or the other. */
  lemma CompareToTotal(a: Employe, b: Employe)
    ensures a.CompareTo(b) <= 0 || b.CompareTo(a) <= 0
  {
    CompareToAntisymmetric(a, b);
  }
}
