/** The fixed configuration of the pool: the pick range, the width of the
    standings page's pick columns, and the list of player names that every
    prediction and every recorded pick must come from. */
module Catalog {

  /** Picks are numbered 1..MaxPickNumber; a correct pick scores its number. */
  const MaxPickNumber: int := 32

  /** Width of the pick columns on the standings page (see `Helpers.ChunkList`). */
  const ChunkSize: int := 10

  /** The player-name suggestion list, in the order the application declares it. */
  const PlayerNameSuggestions: seq<string> := [
    "Abdul Carter, LB (Penn State)",
    "Aeneas Peebles, DL (Duke)",
    "Ahmed Hassanein, OT (Texas A&M)",
    "Aireontae Ersery, OT (Minnesota)",
    "Ajani Cornelius, OT (Oregon)",
    "Alfred Collins, DL (Texas)",
    "Alijah Huzzie, DB (North Carolina)",
    "Andrew Mukuba, DB (Texas)",
    "Anthony Belton, OT (NC State)",
    "Antwaun Powell-Ryland, EDGE (Virginia Tech)",
    "Arian Smith, WR (Georgia)",
    "Armand Membou, OL (Missouri)",
    "Ashton Gillotte, EDGE (Louisville)",
    "Ashton Jeanty, RB (Boise State)",
    "Azareye'h Thomas, DB (Florida State)",
    "Barrett Carter, LB (Clemson)",
    "Barryn Sorrell, DL (Texas)",
    "Benjamin Morrison, CB (Notre Dame)",
    "Benjamin Yurosek, TE (Stanford)",
    "Billy Bowman Jr., DB (Oklahoma)",
    "Bradyn Swinson, EDGE (LSU)",
    "Brandon Crenshaw-Dickson, OL (San Diego State)",
    "Brashard Smith, WR (Miami)",
    "CJ West, DL (Kent State)",
    "Caleb Rogers, OL (Texas Tech)",
    "Cam Skattebo, RB (Arizona State)",
    "Cam Ward, QB (Miami)",
    "Cameron Williams, OL (Oregon)",
    "Carson Schwesinger, LB (Air Force)",
    "Chandler Martin, LB (Memphis)",
    "Charles Grant, DL (Michigan)",
    "Chase Lundt, DB (Air Force)",
    "Chris Paul Jr., OL (Tulsa)",
    "Cobee Bryant, CB (Kansas)",
    "Colston Loveland, TE (Michigan)",
    "DJ Giddens, RB (Kansas State)",
    "Damien Martinez, RB (Miami)",
    "Dante Trader, S (Maryland)",
    "Darien Porter, WR (Iowa State)",
    "Darius Alexander, DL (Missouri State)",
    "David Walker, DL (Central Arkansas)",
    "Davison Igbinosun, CB (Ohio State)",
    "Demetrius Knight Jr., LB (Charlotte)",
    "Deone Walker, DL (Kentucky)",
    "Derrick Harmon, DL (Michigan State)",
    "Devin Neal, RB (Kansas)",
    "Dillon Gabriel, QB (Oregon)",
    "Donovan Ezeiruaku, EDGE (Boston College)",
    "Donovan Jackson, OL (Ohio State)",
    "Dorian Strong, CB (Virginia Tech)",
    "Drew Kendall, OL (Boston College)",
    "Dylan Fairchild, OL (Georgia)",
    "Dylan Sampson, RB (Tennessee)",
    "D’Eryk Jackson, LB (Kentucky)",
    "Elic Ayomanor, WR (Stanford)",
    "Elijah Arroyo, TE (Miami)",
    "Elijah Roberts, DL (SMU)",
    "Emeka Egbuka, WR (Ohio State)",
    "Emery Jones, OL (LSU)",
    "Garrett Nussmeier, QB (LSU)",
    "Grey Zabel, OL (North Dakota State)",
    "Gunnar Helm, TE (Texas)",
    "Harold Fannin Jr., TE (Bowling Green)",
    "Harold Perkins Jr., LB (LSU)",
    "Isaiah Bond, WR (Alabama)",
    "JJ Pegues, DL (Ole Miss)",
    "JT Tuimoloau, EDGE (Ohio State)",
    "Jack Bech, WR (TCU)",
    "Jack Kiser, LB (Notre Dame)",
    "Jack Sawyer, EDGE (Ohio State)",
    "Jacob Parrish, CB (Kansas State)",
    "Jacory Croskey-Merritt, RB (New Mexico)",
    "Jahdae Barron, DB (Texas)",
    "Jake Briningstool, TE (Clemson)",
    "Jalen Milroe, QB (Alabama)",
    "Jalen Rivers, OL (Miami)",
    "Jalen Royals, WR (Utah State)",
    "Jalen Travis, OL (Princeton)",
    "Jalon Walker, LB (Georgia)",
    "Jamaree Caldwell, DL (Houston)",
    "James Pearce Jr., EDGE (Tennessee)",
    "Jamon Dumas-Johnson, LB (Kentucky)",
    "Jared Ivey, EDGE (Ole Miss)",
    "Jared Wilson, OL (North Carolina)",
    "Jarquez Hunter, RB (Auburn)",
    "Javontez Spraggins, OL (Tennessee)",
    "Jaxson Dart, QB (Ole Miss)",
    "Jayden Higgins, WR (Iowa State)",
    "Jaydon Blue, RB (Texas)",
    "Jaylin Noel, WR (Iowa State)",
    "Jaylin Smith, LB (USC)",
    "Jeffrey Bassa, LB (Oregon)",
    "Jihaad Campbell, LB (Alabama)",
    "Jonah Savaiinaea, OL (Arizona)",
    "Jonas Sanker, DB (Virginia)",
    "Jordan Burch, DL (Oregon)",
    "Jordan Phillips, DL (Arizona)",
    "Josaiah Stewart, EDGE (Michigan)",
    "Josh Conerly Jr., OL (Oregon)",
    "Josh Simmons, OL (Ohio State)",
    "Joshua Farmer, DL (Florida State)",
    "Justin Walley, CB (Minnesota)",
    "Kaimon Rucker, EDGE (North Carolina)",
    "Kaleb Johnson, RB (Iowa)",
    "Kalel Mullings, LB (Michigan)",
    "Kelvin Banks Jr., OT (Texas)",
    "Kenneth Grant, DL (Michigan)",
    "Kevin Winston Jr., DB (Penn State)",
    "Kobe Hudson, WR (UCF)",
    "Kyle Kennard, EDGE (Georgia Tech)",
    "Kyle McCord, QB (Syracuse)",
    "Kyle Williams, WR (Washington State)",
    "Landon Jackson, DL (Arkansas)",
    "Lathan Ransom, S (Ohio State)",
    "Luke Kandra, OL (Cincinnati)",
    "Luther Burden III, WR (Missouri)",
    "Malaki Starks, S (Georgia)",
    "Marcus Mbow, OL (Purdue)",
    "Mason Graham, DL (Michigan)",
    "Mason Taylor, TE (LSU)",
    "Matthew Golden, WR (Texas)",
    "Maxwell Hairston, CB (Kentucky)",
    "Mello Dotson, CB (Kansas)",
    "Mike Green, DL (James Madison)",
    "Mitchell Evans, TE (Notre Dame)",
    "Mykel Williams, DL (Georgia)",
    "Nic Scourton, EDGE (Texas A&M)",
    "Nick Emmanwori, S (South Carolina)",
    "Nohl Williams, CB (Cal)",
    "Ollie Gordon ll, RB (Oklahoma State)",
    "Oluwafemi Oladejo, LB (UCLA)",
    "Omarion Hampton, RB (North Carolina)",
    "Omarr Norman-Lott, DL (Michigan State)",
    "Ozzy Trapilo, OL (Boston College)",
    "Pat Bryant, WR (Illinois)",
    "Princely Umanmielen, EDGE (Ole Miss)",
    "Quandarrius Robinson, EDGE (Alabama)",
    "Quincy Riley, CB (Louisville)",
    "Quinn Ewers, QB (Texas)",
    "Quinshon Judkins, RB (Ohio State)",
    "RJ Harvey, RB (UCF)",
    "Riley Leonard, QB (Notre Dame)",
    "Rylie Mills, DL (Notre Dame)",
    "Sai'vion Jones, DL (LSU)",
    "Savion Williams, WR (TCU)",
    "Sebastian Castro, DB (Iowa)",
    "Shavon Revel, CB (Coastal Carolina)",
    "Shedeur Sanders, QB (Colorado)",
    "Shemar Stewart, DL (Texas A&M)",
    "Shemar Turner, DL (Texas A&M)",
    "Simeon Barrow Jr., DL (Miami)",
    "T.J. Sanders, DL (South Carolina)",
    "Tahveon Nicholson, CB (Illinois)",
    "Tate Ratledge, OL (Georgia)",
    "Terrance Ferguson, TE (Oregon)",
    "Tetairoa McMillan, WR (Arizona)",
    "Tez Johnson, WR (Oregon)",
    "Tommi Hill, DB (Nebraska)",
    "Tory Horton, WR (Colorado State)",
    "Travis Hunter, WR/CB (Colorado)",
    "Tre Harris, WR (Ole Miss)",
    "TreVeyon Henderson, RB (Ohio State)",
    "Trevor Etienne, RB (Georgia)",
    "Trey Amos, CB (Alabama)",
    "Tyleik Williams, DL (Ohio State)",
    "Tyler Baron, EDGE (Ole Miss)",
    "Tyler Batty, DL (BYU)",
    "Tyler Booker, OL (Alabama)",
    "Tyler Warren, TE (Penn State)",
    "Walter Nolen, DL (Ole Miss)",
    "Will Campbell, OL (LSU)",
    "Will Howard, QB (Ohio State)",
    "Will Johnson, CB (Michigan)",
    "Willie Lampkin, OL (North Carolina)",
    "Wyatt Milum, OT (West Virginia)",
    "Xavier Restrepo, WR (Miami)",
    "Xavier Truss, OL (Georgia)",
    "Xavier Watts, S (Notre Dame)",
    "Zy Alexander, CB (LSU)"
  ]
}
