/**
 * Clients of `Employe` that use only the contracts: removing a league's
 * administrator, refusing to remove the root, and rejecting reversed dates.
 */
module Scenarios {
  import opened Results
  import opened Personnel

  /** 2019-01-01 and 2020-01-01 as day numbers since 1970-01-01. */
  const Jan1st2019: Date := 17897
  const Jan1st2020: Date := 18262

  method RemoveAdministratorThenRoot() {
    var gestion := new GestionPersonnel();
    var r := Employe.Local(gestion, 1, null, "root", "", "", "toor", Some(Jan1st2019), None);
    var root := r.value;
    gestion.root := root;

    var ligue := new Ligue("Ligue de football", null);
    r := Employe.Create(gestion, ligue, "Dupont", "Jean", "jean@ligue.fr", "secret", Some(Jan1st2020), None);
    var admin := r.value;
    r := Employe.Create(gestion, ligue, "Durand", "Anne", "anne@ligue.fr", "secret", Some(Jan1st2019), Some(Jan1st2020));
    var member := r.value;
    ligue.employes := {admin, member};
    ligue.SetAdministrateur(admin);

    // A plain member leaves: the administrator stays.
    var o := member.Remove();
    assert o == Pass && ligue.administrateur == admin && ligue.employes == {admin};

    // The administrator leaves: the root takes the league over.
    o := admin.Remove();
    assert o == Pass && ligue.administrateur == root && ligue.employes == {};

    // The root stays.
    o := root.Remove();
    assert o == Fail(CannotRemoveRoot) && gestion.root == root && ligue.administrateur == root;
  }

  method RejectReversedDates() {
    var gestion := new GestionPersonnel();
    var r := Employe.Create(gestion, null, "Martin", "Paul", "paul@ligue.fr", "secret", Some(Jan1st2020), Some(Jan1st2019));
    assert r == Failure(InvalidDepartureDate);

    r := Employe.Create(gestion, null, "Martin", "Paul", "paul@ligue.fr", "secret", Some(Jan1st2019), None);
    var e := r.value;
    var o := e.SetDateDepart(Some(Jan1st2019));
    assert o == Fail(InvalidDepartureDate) && e.dateDepart == None;
    o := e.SetDateDepart(Some(Jan1st2020));
    assert o == Pass && e.dateDepart == Some(Jan1st2020);
    o := e.SetDateDepart(None);
    assert o == Pass && e.dateDepart == None;
  }
}
